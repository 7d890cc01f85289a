# A model of the kernel, with proofs

This project models the parts of a small 32-bit x86 kernel that carry its correctness, and proves what
they are meant to do. Values, functions and lemmas say what the operations mean and what follows over
whole runs; classes and methods carry out the same operations in place, statement by statement, on
arrays, linked records and machine words, and are proved equal to those functions. `dafny verify
dfyconfig.toml` checks all of it.

**Scheduler and context switch.** `SchedulerSpec` is the dispatcher as a transition system: ticks,
yields, exits, thread creation and removal. `Quanta` says field by field what a tick does and how long a
thread keeps the processor; `Liveness` bounds every ready thread's wait. `Scheduler` is the dispatcher as the kernel has it, a circular singly linked list of thread records with head and tail.
`Frames` says what the timer interrupt pushes and pops; `Machine` joins registers, word memory, kernel
stacks and scheduler and proves that a timer interrupt changes no thread's view of its own registers and
stack; `Runs` lifts this to every interleaving of interrupts, yields, exits, creations and arbitrary work
of the running thread, and `Slices` carries time slices and exits over to it. `Cpu` carries the interrupt out one push and one pop at a time. Stack switching and
IRET follow the Intel SDM, Volume 3A, section 6.12.1; the load of ESP0 from the TSS follows section 7.2.1.

**Processes.** `Processes` allocates slots, writes first stack frames and boots the idle process;
`UserSpaces` and `UserProcesses` build the address space of a user process, with frames enough or without, and
`UserImages` says byte by byte what the process finds there;
`Creation` shows that all of it, page tables included, is a sequence of events of those runs: work, a
creation, work; or, when there is no slot or no frame, work and a slot given up. What carries this is
`FrameUse`: no operation of the virtual memory manager writes a word of a frame that holds data, such as a
kernel stack. `Startup` follows `kernel_main` from `pmm_init` to `scheduler_init` in place, on memory that may
hold anything, and ends (`KernelMain`) in a machine from which every theorem about runs applies, with both
processes queued and set up to start and both directories showing what they should.

**Memory.** `Pmm` is the bitmap frame allocator. `Paging` and `AddressSpaces` are two-level page tables in
the frames it hands out (32-bit paging: section 4.3 of the Intel SDM, Volume 3A, for the walk and section
4.6 for the rights, in the editions whose chapter 4 is Paging), with an ownership invariant that makes
every update local to one translation of one directory. `IdentityMap` is what `vmm_init` builds, `Vmm` is
all of this on an array of words, `UserCopy` the checked read of user memory.

**Devices and drawing.** `VgaDisplay`, `VgaDrawing` and `VgaRuns` relate the shadow buffer to the four bit
planes, `VgaSpill` says what a rectangle does that reaches past the left or the right edge; `VgaScreen` is the
driver with its byte-wise fast path; `Bresenham` is the line. `Ellipse` holds the
integer square root and the ellipses of the boot screen, `Terminal` the scrolling text screen, `Names` and
`IoManager` the driver and device lists.

## Where the code is not what it says, or not always what it should be

* `process.h` lists the saved segment registers with `gs` at the lowest address; the interrupt stub and the
  builders of first frames leave `ds` there. The model follows the code.
* The comment in `vmm_create_directory` says that the copied kernel entries keep the user bit clear; the code
  sets it in every entry of every copied table. The model follows the code (`DirectoryCloned`).
* A dead thread is made to run again exactly when no queued thread is ready (`DeadRevivedIff`). Because the
  idle thread is queued and never exits, no run reaches that branch (`DeadLosesProcessor`, `DeadForever`).
* A new directory shares no table with the kernel exactly when there was a frame for itself and one for
  every kernel table (`SharesNothingIff`). With fewer, some address is shared, and what a process maps there
  appears in the kernel (`ShortageLeaks`); so it does when `vmm_init` has left 1 to 32 frames, as it does with
  7304 KB above the first megabyte (`BootShortage`, `ShortagePossible`).
* `vmm_map_page` returns nothing, so a mapping that finds no frame for its table fails without a word, and
  `vmm_create_directory` then shares a table. No user process that is created suffers from either: whenever
  `proc_create_user` does not give up, every page is there and no table is shared (`UserSpaceMade`,
  `CreatedShows`).
* `proc_create_user` rounds the code size up in 32 bits: a size above 4 GB - 4096 maps no code at all; any other
  is mapped to its last byte and not a page further (`CodePagesIff`). The stack and the thunk page are mapped
  last, and hide code that lies under them (`SpaceShown`).
* `pmm_free_frame` keeps the counter right exactly when the frame is a managed one, or ignored altogether
  (`FreeKeepsIff`). Freeing the address 64 MB breaks it however much memory there is, and the allocator then
  hands that address out (`FreeBreaks`).
* `VgaFillRect` fills the shadow even without a device; planes and shadow then still agree exactly when the
  rectangle already had the colour's four bits (`OffFillAgreesIff`); one pixel on a black screen is enough to
  break it (`OffFillBreaks`).
* `VgaFillRect` does not clip columns: past an edge its whole bytes fall on other rows. Planes and shadow then
  agree exactly when every byte on which another row's byte stays already shows the colour
  (`SpillAgreesIff`); eight pixels left of the screen break it (`SpillBreaks`).
* The outline of an ellipse stays inside the filled ellipse exactly in the rows where rx times the root of the
  row is at least ry (`StrokeInsideIff`); in the top row it never does (`TopRowOutside`).
* A driver whose entry routine makes a device and then fails is freed, and the device is not: it stays
  allocated, on the list of an object nobody can reach (`CreateDriver`, `FailingEntryLeaks`). `free` reuses
  nothing (lib/memory.c:76-94), so the object such a device names still holds that list.
* `alloc_thread` first looks for a slot that is dead and has tid 0. Nothing sets a tid back to 0, so a slot is
  used once (`SlotsSpent`).

## What the code relies on

Stated as preconditions: `pmm_init` is given 7168 KB or more above the first megabyte and no sum wraps; only
managed frames are freed; flags of a mapping are below 4096; a page table, where there is one, is in RAM; a
thread is queued at most once; the idle thread is queued, never exits and is never removed; a kernel stack
frame is available when a thread is created; kernel stacks have room for an interrupt below the stack pointer,
its frame and 237 words for the call of `scheduler_tick`; the bytes `VgaFillRect` writes lie in the adapter's
64 KB window; no 32-bit arithmetic of a line overflows; the square root's first guess, squared, fits in 32
bits; text given to `screen_write` is terminated; booting finds the thread and process tables empty.

## Model

| member | source | states |
|---|---|---|
| SchedulerSpec.NextReadyFirst | kernel/proc/scheduler.c:110-130 | when any queued thread is ready, the search ends at a ready queued thread, and no ready thread comes before it in cyclic order after the current one |
| SchedulerSpec.NextReadyNone | kernel/proc/scheduler.c:110-130 | when none is ready the search returns the current thread if it is ready though not queued, and nobody otherwise or from an empty queue |
| SchedulerSpec.FindProcExact | kernel/proc/process.c:390-397 | with unique pids, the lookup finds exactly the active process of that pid |
| SchedulerSpec.TickCoherent | kernel/proc/scheduler.c:207-289 | a tick keeps the invariant and leaves exactly one running thread, current for scheduler and process manager alike, quantum 1 to 10, ESP0 its stack top, CR3 its process's directory |
| SchedulerSpec.StepCoherent | kernel/proc/scheduler.c:185-301 | ticks, yields, exits, creation and removal of threads all keep the invariant |
| SchedulerSpec.TraceCoherent | kernel/proc/scheduler.c:161-301 | the invariant holds at every instant of every run, and the full tick invariant after every entry into the dispatcher |
| SchedulerSpec.TickOutcome | kernel/proc/scheduler.c:207-289 | in a coherent state the context returned is never NULL: it is the saved context of the thread made current, whose frame the caller may load |
| SchedulerSpec.DeadRevivedIff | kernel/proc/scheduler.c:237-249 | a dead current thread is made to run again exactly when no queued thread is ready |
| SchedulerSpec.DeadLosesProcessor | kernel/proc/scheduler.c:237-289 | with the idle thread queued, a dead current thread loses the processor at the next tick |
| SchedulerSpec.DeadStaysDead | kernel/proc/process.c:377-386 | over any run a dead thread stays dead |
| Quanta.TickKeeps | kernel/proc/scheduler.c:207-235 | a thread with more than one tick left goes on: its context recorded, one tick less, its own context answered; nothing else changes but the tick count |
| Quanta.TickAlone | kernel/proc/scheduler.c:237-249 | one with no tick left goes on all the same when no other queued thread is ready, with ten ticks |
| Quanta.TickSwitches | kernel/proc/scheduler.c:237-289 | otherwise it loses the processor to the first ready thread after it in the queue, going round: ten ticks, its stack in ESP0, its process's directory in CR3, its saved context answered; every field of both threads and of the scheduler |
| Quanta.LosesIff | kernel/proc/scheduler.c:207-289 | a running thread loses the processor at a tick exactly when it has at most one tick left and another queued thread is ready; otherwise it is running in its own context, with one tick less or ten |
| Quanta.YieldSwitchesIff | kernel/proc/scheduler.c:291-301 | a yield gives the processor up exactly when another queued thread is ready, however much time is left |
| Quanta.SliceHeld | kernel/proc/scheduler.c:224-235 | over any run a thread with q ticks left that neither yields nor exits runs through the next q - 1 ticks, each costing it one |
| Quanta.FullSlice | kernel/proc/scheduler.c:224-289 | over any run a thread that was given the processor, and neither yields nor exits, has it through the next nine ticks; at the tenth it loses it exactly when another queued thread is ready |
| Quanta.CountersExact | kernel/proc/scheduler.c:207-254 | over any run the tick counter counts the entries into the dispatcher and the switch counter the changes of the current thread |
| Liveness.OffsetAfterSwitch | kernel/proc/scheduler.c:110-130 | when another thread is dispatched, a waiting thread's cyclic distance falls by what the search passed |
| Liveness.TickProgress | kernel/proc/scheduler.c:207-289 | every tick dispatches a waiting thread or lowers its bound, distance first and remaining quantum second |
| Liveness.BoundedWaiting | kernel/proc/scheduler.c:207-289 | with no change of queue membership, a ready thread at distance d runs within d * 10 entries into the dispatcher |
| Liveness.NoSecondTurn | kernel/proc/scheduler.c:207-289 | while a ready thread is kept waiting, nobody who lost the processor gets it back |
| Scheduler.Dispatcher.QueueInsert | kernel/proc/scheduler.c:50-65 | on the pointers: appends to the queue, and the ring stays one cycle with the tail before the head |
| Scheduler.Dispatcher.QueueRemove | kernel/proc/scheduler.c:71-103 | on the pointers: deletes a queued thread keeping the order, does nothing for one that is not queued, and leaves it with a null link |
| Scheduler.Dispatcher.QueueNextReady | kernel/proc/scheduler.c:110-130 | the walk ends and returns the first ready thread in cyclic order |
| Scheduler.Dispatcher.Init | kernel/proc/scheduler.c:161-183 | the idle thread is queued behind whatever is there, and is the current and running thread with a full quantum |
| Scheduler.Dispatcher.AddThread | kernel/proc/scheduler.c:185-190 | the thread is ready and last in the queue |
| Scheduler.Dispatcher.RemoveThread | kernel/proc/scheduler.c:192-196 | the thread leaves the queue and nothing else changes |
| Scheduler.Dispatcher.Tick | kernel/proc/scheduler.c:207-289 | in place: the whole new state and the returned context are those of the transition system |
| Scheduler.Dispatcher.ClearQuantum | kernel/proc/scheduler.c:291-301 | the part of a yield before the software interrupt |
| Scheduler.Dispatcher.ProcByPid | kernel/proc/process.c:390-397 | the loop returns the first active process with the pid, or none exactly when there is none |
| Scheduler.Dispatcher.Exit | kernel/proc/process.c:377-386 | the running thread becomes dead, nothing else changes |
| Frames.LoadSaved | kernel/interrupt/idt.c:355-411 | popping what was pushed gives back every register, segment, eip, cs, eflags and esp, for three-word and five-word interrupt frames |
| Frames.RestoreReadsFrame | kernel/interrupt/idt.c:396-411 | the restore sequence depends on nothing but the frame it consumes |
| Frames.SavedFrameWords | kernel/interrupt/idt.c:355-376 | the words of a saved frame from the lowest address: ds, es, fs, gs, the PUSHA block, 0x20, 0, eip, cs, eflags, and from Ring 3 esp and ss |
| Frames.StartFrameWords | kernel/proc/process.c:75-155 | the words of a first frame: the ring's data selector four times, ten zeros, the entry point, the code selector, 0x202, and for a user thread its stack pointer and 0x23 |
| Frames.FirstRegisters | kernel/proc/process.c:75-155 | what the restore loads from it, register by register: IF set, cs 0x08 with 0x10 in the data segments or 0x1B with 0x23, seven zero registers |
| Frames.FirstDispatch | kernel/proc/process.c:75-155 | the restore sequence consumes exactly the frame of a new thread and starts it with the registers meant: its entry, zeros, 0x08 and 0x10 or 0x1B and 0x23, 0x202 and the stack pointer it was given |
| Machine.InterruptKeepsViews | kernel/interrupt/idt.c:322-412 | one timer interrupt, whoever it dispatches, changes no thread's view of its registers and stack |
| Runs.EventKeeps | kernel/interrupt/idt.c:322-412 | every event keeps the invariant, and every thread's view but that of a thread at work |
| Runs.InterruptPossible | kernel/interrupt/idt.c:322-412 | a timer interrupt can be served in every sound state |
| Runs.RunSound | kernel/proc/scheduler.c:161-301 | every state of every run is sound: stacks disjoint, every saved context a well-formed frame in its owner's stack |
| Runs.ViewPreserved | kernel/interrupt/idt.c:322-412 | over any run in which a thread does not work, its registers and its stack are as it left them |
| Runs.ResumedExactly | kernel/interrupt/idt.c:322-412 | a thread that gets the processor back has the very registers and stack words it had when it was preempted |
| Runs.FirstRun | kernel/proc/process.c:75-155 | a new thread's first instant is its entry point with interrupts enabled, its ring's selectors, zero registers and the stack pointer it was given, whatever happened since it was created |
| Runs.RunProjects | kernel/proc/scheduler.c:207-301 | the scheduler's part of a machine run is a run of the transition system |
| Runs.ServedInTime | kernel/proc/scheduler.c:207-289 | in machine runs too a ready thread at distance d gets the processor within d * 10 timer interrupts and yields |
| Runs.DeadForever | kernel/proc/scheduler.c:237-249 | a dead thread never has the processor again after an interrupt |
| Slices.ExitedForever | kernel/proc/process.c:377-386 | a thread that exits never has the processor again after an interrupt |
| Slices.SliceOnMachine | kernel/proc/scheduler.c:224-289 | on the machine: a thread that was given the processor, and neither yields nor exits, still has it after each of the next nine timer interrupts |
| Cpu.Processor.EnterInterrupt | kernel/interrupt/idt.c:355-356 | the processor's own pushes, on the interrupted stack or, from Ring 3, on the one ESP0 names |
| Cpu.Processor.SaveContext | kernel/interrupt/idt.c:357-376 | the pushes leave exactly the saved frame, and no other word changes |
| Cpu.Processor.RestoreContext | kernel/interrupt/idt.c:396-411 | the pops and the IRET load exactly the registers the frame holds |
| Cpu.Processor.Irq0TimerHandler | kernel/interrupt/idt.c:322-412 | the whole handler, push by push and pop by pop, has the effect the theorems are about, whatever scheduler_tick and its callees leave in the words below the frame |
| Processes.SetupKernelStack | kernel/proc/process.c:75-123 | seventeen words below the top hold the first frame, with the entry point, 0x08 and 0x202 at its end; no other word changes |
| Processes.SetupUserStack | kernel/proc/process.c:129-155 | nineteen words below the top hold the first frame of a user thread, with the entry point, 0x1B, 0x202, the stack pointer and 0x23 at its end; no other word changes |
| Processes.FreeProc | kernel/proc/process.c:27-38 | the slot taken is the first inactive one; there is none exactly when all are active |
| Processes.ThreadSlot | kernel/proc/process.c:40-59 | the slot taken is the first that is dead and was never used, or else the first never used; there is none exactly when all were |
| Processes.ProcessManager.AllocProcess | kernel/proc/process.c:27-38 | in place: that slot gets the next pid and is active, or nothing changes |
| Processes.ProcessManager.AllocThread | kernel/proc/process.c:40-59 | in place: both searches in order; that slot is zeroed and gets the next tid, or nothing changes |
| Processes.ProcessManager.Init | kernel/proc/process.c:169-204 | both tables cleared; the first process is pid 0 in the kernel's directory, the first thread is ready on a frame of its own and current |
| Processes.ProcessManager.Boot | kernel/main.c:194-203 | process manager initialised and ESP0 loaded with the idle thread's stack |
| Processes.ProcessManager.StartScheduler | kernel/proc/scheduler.c:161-183 | the idle thread joins whatever was queued before and is current, running, with a full quantum |
| Processes.ProcessManager.CreateKernel | kernel/proc/process.c:206-239 | a process and a queued ready thread with a new stack and its first frame; given up, with nothing mapped or queued, when there is no slot |
| Creation.FreshStackApart | kernel/proc/process.c:226-231 | a frame just taken overlaps no kernel stack there is |
| Creation.CreationIsEvent | kernel/proc/process.c:206-239 | what creation does to memory, tables and queue is a creation event of the runs: sound again, and the new thread starts from its first frame |
| Creation.WorkInOrder | kernel/proc/process.c:301-369 | whatever writes no frame of data is, for the runs, work of the thread that asks for it: no other thread sees a change |
| Creation.UserCreationRuns | kernel/proc/process.c:241-375 | the whole of proc_create_user, for a running thread, is three events of a run: work (directory, code, stack), a creation, work (thunk page) |
| Creation.FailedCreationRuns | kernel/proc/process.c:301-341 | a creation that fails is two events: work, and a process slot given up |
| Creation.EventInOrder | kernel/interrupt/idt.c:322-412 | interrupts, yields, exits, removals, and work that writes no directory leave kernel stacks in frames of data, ready for the next creation |
| Creation.StackSelfMappedIff | kernel/proc/scheduler.c:258-265 | in a user process's directory a kernel stack is at its own address, so that loading CR3 while on it is safe, exactly when no page of code lies over it |
| Creation.SlotsSpent | kernel/proc/process.c:40-59 | over any run, unused slots and threads created add up to a constant: slots of dead threads are not reused |
| Startup.BootStarts | kernel/main.c:194-203 | after proc_init and the load of ESP0, as soon as scheduler_init has run, the boot code going on as the idle thread is a sound machine |
| Startup.BootWorks | kernel/main.c:278-292 | before scheduler_init, whatever writes no frame of data keeps that so, and no thread sees a change |
| Startup.BootCreates | kernel/main.c:278-292 | so does creating a process; its thread is set up to start |
| Startup.BootCreatesUser | kernel/proc/process.c:241-375 | so does the whole of proc_create_user, page tables before and after included |
| Startup.AddKernelProcess | kernel/proc/process.c:206-239 | proc_create_kernel in place while booting, whether it succeeds or not |
| Startup.AddUserProcess | kernel/proc/process.c:241-375 | proc_create_user in place while booting, whether it succeeds or not |
| Startup.CreatedShows | kernel/proc/process.c:301-369 | over the identity map every user process that is created has its whole address space, however few frames there were |
| Startup.KernelMain | kernel/main.c:171-292 | in place, on arbitrary memory with frames enough: pmm_init, vmm_init, proc_init, both processes and scheduler_init end in a sound machine, idle running, both threads queued and set up to start at their entries, kernel and user directory as they should be |
| UserSpaces.CodeMapIs | kernel/proc/process.c:305-324 | page k of the code, addresses wrapping around, is page k of the image, and no other page is |
| UserSpaces.CodeMapped | kernel/proc/process.c:310-324 | with frames for the tables, or when it leaves a frame, the code loop makes exactly those translations, writable and for users, and touches no other of any directory |
| UserSpaces.StackMapped | kernel/proc/process.c:326-337 | with frames enough, or whenever it succeeds, the stack loop gives every stack page a frame nobody had, all different, none of them a table or a directory |
| UserSpaces.SpaceKeeps | kernel/proc/process.c:301-337 | all mappings for a new process keep every frame of data and all memory below 8 MB, word for word, also when frames run out on the way |
| UserSpaces.UserSpaceMade | kernel/proc/process.c:301-337 | with frames enough, and however few there were whenever it does not give up, the finished directory shows the stack, the code to its last page and otherwise the kernel's pages for users, and shares no table; no other directory changes |
| UserSpaces.SpaceFinished | kernel/proc/process.c:349-369 | the kernel stack and the thunk page add exactly the thunk page, readable and not writable, without another frame where the kernel has that page |
| UserSpaces.SelfMappedIff | kernel/proc/process.c:305-324 | a page the kernel has at its own address is there in the process's directory exactly when no page of code lies over it, or that very page |
| UserImages.CodePagesIff | kernel/proc/process.c:308-308 | page j is mapped exactly when some byte of the code lies in it; a size whose rounding wraps around maps none |
| UserImages.ImageMapped | kernel/proc/process.c:305-337 | after the mappings every byte of the code is in the page of its byte of the image, for users to read and write, but where the stack lies |
| UserImages.SpaceShown | kernel/proc/process.c:301-369 | every page of the finished address space: sixteen stack pages below 0x7FFF0000, the thunk page to be read only, the pages of the code and no more, 128 MB at their own addresses, nothing else |
| UserImages.ImageReads | kernel/interrupt/syscall.c:53-63 | what the process reads at byte b of its code is what RAM holds at byte b of the image |
| UserImages.StackReads | kernel/proc/process.c:326-355 | each of the 64 KB below 0x7FFF0000, the first stack pointer's among them, reads from the process's own stack frames |
| UserProcesses.MapCodePages | kernel/proc/process.c:310-324 | the code loop in place |
| UserProcesses.MapStackPages | kernel/proc/process.c:330-337 | the stack loop in place, with its early return when frames run out |
| UserProcesses.CreateUser | kernel/proc/process.c:241-375 | the whole creation in place, from any number of free frames: slots, address space, first frame, thunk page and queue, or the slot given up with what was mapped left behind |
| Pmm.AllocGivesLowest | kernel/mm/pmm.c:74-90 | the lowest free frame, aligned and in range, is taken and counted; 0 exactly when none is free |
| Pmm.FreeGivesBack | kernel/mm/pmm.c:92-101 | a managed frame becomes free and the counter stays right |
| Pmm.FreeKeepsIff | kernel/mm/pmm.c:92-101 | the counter stays right exactly when the address is not between the end of the managed frames and the end of the bitmap |
| Pmm.FreeBreaks | kernel/mm/pmm.c:92-101 | freeing 64 MB after pmm_init is such an address: the counter is one off, and a full allocator hands it out |
| Pmm.AllocThenFree | kernel/mm/pmm.c:74-101 | freeing what was just allocated restores the allocator |
| Pmm.HistoryWellFormed | kernel/mm/pmm.c:43-104 | after any history the used counter is the number of set bits among the managed frames |
| Pmm.NeverTwice | kernel/mm/pmm.c:74-101 | over any history a frame handed out twice was freed in between |
| Pmm.ManagedIff | kernel/mm/pmm.c:52-65 | a frame is managed exactly when it lies, whole, above 8 MB and below both 64 MB and the end of memory |
| Pmm.FrameAllocator.constructor | kernel/mm/pmm.c:43-72 | all managed frames are free, all bits above them set, the counter zero |
| Pmm.FrameAllocator.AllocFrame | kernel/mm/pmm.c:74-90 | the byte-skipping scan of the bitmap misses no free frame |
| Pmm.FrameAllocator.FreeFrame | kernel/mm/pmm.c:92-101 | the bitmap and the counter after a free, double frees and addresses out of range included |
| Paging.WrittenWalk | kernel/mm/vmm.c:141-141 | one entry of an owned table changes one translation of one directory |
| Paging.WidenedWalk | kernel/mm/vmm.c:132-137 | adding rights to a directory entry grants no page anything |
| Paging.LowBitsAre | kernel/mm/vmm.h:24-26 | present, writable and user are bits 0, 1 and 2, and setting one changes no other bit |
| AddressSpaces.MapIsolation | kernel/mm/vmm.c:121-143 | the page gets its frame and rights and every other translation of every directory stays; with no table and no frame nothing changes |
| AddressSpaces.UnmapIsolation | kernel/mm/vmm.c:145-156 | the page is unmapped and every other translation of every directory stays |
| AddressSpaces.MapThenUnmap | kernel/mm/vmm.c:121-156 | unmapping a page that was just mapped restores every translation |
| AddressSpaces.MapWrites | kernel/mm/vmm.c:121-143 | the very words a mapping writes: the table entry with the frame and all twelve flag bits, the directory entry made with its table or widened |
| AddressSpaces.UnmapWrites | kernel/mm/vmm.c:145-156 | the word an unmapping writes is 0, and the directory entry stays |
| AddressSpaces.CloneWrites | kernel/mm/vmm.c:94-116 | the very words a round of the copying loop writes: 0, the kernel's entry for users, or a copy with the same twelve flag bits and every word of the table, all with the user bit |
| AddressSpaces.HistorySeparated | kernel/mm/vmm.c:45-156 | over any history of mappings, unmappings, new directories and frames taken for data, no table is shared, and table rights never exceed directory rights |
| AddressSpaces.Untouched | kernel/mm/vmm.c:73-156 | between any two instants of such a history a page of a directory no change names keeps translation and rights |
| AddressSpaces.Independent | kernel/mm/vmm.c:73-156 | a new directory and the kernel's: whatever happens later, each translates as it did as long as nothing names it, however the other changes |
| AddressSpaces.DirectoryCloned | kernel/mm/vmm.c:73-119 | with frames enough the new directory translates as the kernel's with the user right added, owns its tables, and changes no other directory |
| AddressSpaces.SharesNothingIff | kernel/mm/vmm.c:102-107 | the new directory shares no table exactly when there are frames for all |
| AddressSpaces.DirectoryEnough | kernel/mm/vmm.c:94-116 | a new directory that leaves a frame free had one for each of its tables |
| AddressSpaces.SharedTableLeaks | kernel/mm/vmm.c:103-107 | a mapping through a shared table appears in both directories |
| FrameUse.MapKeeps | kernel/mm/vmm.c:121-143 | a mapping changes no word of a frame of data, makes none a table, and changes nothing below the frames, also where tables are shared |
| FrameUse.UnmapKeeps | kernel/mm/vmm.c:145-156 | nor does an unmapping |
| FrameUse.CreateKeeps | kernel/mm/vmm.c:73-119 | nor does a new directory, with frames enough or without |
| FrameUse.ShortageLeaks | kernel/mm/vmm.c:102-107 | with a frame for a directory but not for all its tables there is an address at which whatever a process maps appears in the kernel |
| IdentityMap.BootShortage | kernel/mm/vmm.c:102-107 | that happens to the first directory after a vmm_init that leaves 1 to 32 frames |
| IdentityMap.IdentityMapped | kernel/mm/vmm.c:163-196 | exactly 33 frames are taken, every page below 128 MB maps to itself, present, writable and not for users, and no other page is mapped |
| IdentityMap.PointersSound | kernel/mm/pmm.h:24-25 | every frame the allocator can hand out is mapped to itself, so physical addresses serve as pointers |
| Vmm.Manager.GetOrCreateTable | kernel/mm/vmm.c:45-69 | in place: the table of an entry, cleared and installed when it was absent, NULL when there is no frame |
| Vmm.Manager.MapPage | kernel/mm/vmm.c:121-143 | in place: memory, allocator and directory after a mapping |
| Vmm.Manager.UnmapPage | kernel/mm/vmm.c:145-156 | in place: memory after an unmapping |
| Vmm.Manager.CreateDirectory | kernel/mm/vmm.c:73-119 | in place: the nested copying loops, and the fallback that shares a table |
| Vmm.Manager.Init | kernel/mm/vmm.c:163-184 | in place: the clearing loop and the 32768 mappings |
| UserCopy.AcceptedIff | kernel/interrupt/syscall.c:35-51 | the pointer check accepts exactly the addresses below 0x80000000 that the hardware walk translates for users |
| UserCopy.AcceptedAfterMap | kernel/interrupt/syscall.c:35-51 | a mapping decides the check for its own page and for no other page of any directory |
| UserCopy.RejectedAfterUnmap | kernel/interrupt/syscall.c:35-51 | an unmapped page is rejected, and the check of every other page stays |
| UserCopy.ReadIs | kernel/interrupt/syscall.c:35-63 | an address is accepted exactly when user code could read there, and the byte copied is the one it would read: that of RAM at the frame its page translates to |
| UserCopy.WordRead | kernel/interrupt/syscall.c:53-63 | the four bytes at an aligned address are accepted together and make up the word of RAM, lowest address least significant |
| UserCopy.ReadAfterMap | kernel/interrupt/syscall.c:35-63 | after a mapping for users, a read from its page gives what RAM holds in the frame it was given |
| UserCopy.AcceptedFrom | kernel/interrupt/syscall.c:53-63 | the first byte of a buffer that user code could not read |
| UserCopy.CopyFromUser | kernel/interrupt/syscall.c:53-63 | 0 exactly when user code could read every byte; the bytes before the first it could not are those it would read, the rest of the destination stays |
| VgaDisplay.PlaneBits | drivers/video/vga/vga_screen.c:88-98 | the byte built from eight pixels has exactly the bits of the colours |
| VgaDisplay.AgreeIffPixels | drivers/video/vga/vga_screen.c:80-98 | bytes agree exactly when bit 7 - (x mod 8) of byte y * 80 + x / 8 of plane p is bit p of every pixel |
| VgaDisplay.RepairedTwice | drivers/video/vga/vga_screen.c:84-106 | rewriting bytes twice, with the shadow changed only where the second pass writes, is one rewriting |
| VgaDrawing.RowDrawn | drivers/video/vga/vga_screen.c:62-106 | what plotting a row pixel by pixel does to shadow, planes and map mask |
| VgaDrawing.RectDrawn | drivers/video/vga/vga_screen.c:62-106 | what plotting a rectangle pixel by pixel does, rows off the screen skipped |
| VgaRuns.ClearAgrees | drivers/video/vga/vga_screen.c:112-151 | a clear makes planes and shadow agree whatever they held |
| VgaRuns.PaintAt | drivers/video/vga/vga_screen.c:62-262 | a pixel, a clear, a rectangle and a line colour exactly the pixels they cover and keep planes and shadow in agreement |
| VgaRuns.PaintMask | drivers/video/vga/vga_screen.c:103-106 | a stroke that covers a pixel of the screen leaves the map mask selecting the four planes and no more |
| VgaRuns.LastStrokeShows | drivers/video/vga/vga_screen.c:31-262 | in any run of drawing after a clear, the shadow and the four planes show at every pixel the colour of the last stroke that covers it, and all four planes are selected |
| VgaRuns.OffFillAgreesIff | drivers/video/vga/vga_screen.c:165-189 | without a device a fill keeps agreement exactly when the visible rectangle already had the colour's bits |
| VgaRuns.OffFillBreaks | drivers/video/vga/vga_screen.c:165-189 | any one pixel filled that way on a black screen breaks it |
| VgaSpill.SpillByte | drivers/video/vga/vga_screen.c:191-221 | what every visible byte holds after a fill anywhere: a whole byte of another row, or what the shadow wants, or what it held |
| VgaSpill.SpillFits | drivers/video/vga/vga_screen.c:158-221 | within the screen's columns a fill is the plotting of every pixel of the rectangle |
| VgaSpill.SpillAgreesIff | drivers/video/vga/vga_screen.c:158-221 | anywhere, planes and shadow agree after a fill exactly when every byte on which another row's whole byte stays shows the colour's bits |
| VgaSpill.SpillBreaks | drivers/video/vga/vga_screen.c:191-215 | eight pixels just left of a black screen break it |
| VgaScreen.Screen.GetPixel | drivers/video/vga/vga_screen.c:31-35 | the shadow's colour, 0 off the screen; where shadow and planes agree, its four low bits are what the adapter shows |
| VgaScreen.Screen.PutPixel | drivers/video/vga/vga_screen.c:62-106 | in place: the shadow, the byte in all four planes, the mask back at 0x0F; nothing when off or off screen |
| VgaScreen.Screen.ClearScreen | drivers/video/vga/vga_screen.c:112-151 | the byte loops equal filling the whole screen pixel by pixel |
| VgaScreen.Screen.FillRect | drivers/video/vga/vga_screen.c:158-221 | in place, wherever the rectangle is: shadow clipped, planes row by row; within the screen's columns the fast path equals plotting every pixel, rows clipped; the shadow is filled even when off |
| VgaScreen.Screen.DrawLine | drivers/video/vga/vga_screen.c:231-262 | the error loop ends and plots exactly the points of the line, in order, whenever its arithmetic does not overflow |
| Bresenham.PointBounds | drivers/video/vga/vga_screen.c:231-262 | a line starts and ends at its endpoints and never leaves the box between them |
| Bresenham.HalfPixel | drivers/video/vga/vga_screen.c:231-262 | every point is within half a pixel of the ideal line along the minor axis |
| Bresenham.PointsConnected | drivers/video/vga/vga_screen.c:249-261 | each point is one step from the last, always along the longer side |
| Bresenham.ErrorStep | drivers/video/vga/vga_screen.c:252-260 | the two comparisons of the error term take exactly the steps to the next point |
| Bresenham.EndIsLast | drivers/video/vga/vga_screen.c:248-250 | the end is met at the last of max(dx, dy) + 1 points and at no other |
| Bresenham.ShortFits | drivers/video/vga/vga_screen.c:252-260 | no line overflows with sides up to a third of the range, nor a straight one up to half |
| Ellipse.NewtonStep | kernel/boot_splash.c:639-646 | a Newton step goes down and never below the root |
| Ellipse.Isqrt | kernel/boot_splash.c:639-646 | the loop ends with the largest number whose square is at most n, and 0 for n <= 0 |
| Ellipse.FilledIff | kernel/boot_splash.c:648-656 | which pixels of a row are filled, without the division |
| Ellipse.FilledInside | kernel/boot_splash.c:648-656 | every filled pixel satisfies the inequality of the ellipse |
| Ellipse.DiscExact | kernel/boot_splash.c:648-656 | a filled circle is exactly the disc |
| Ellipse.Symmetric | kernel/boot_splash.c:648-666 | filled and stroked ellipses are symmetric about both axes |
| Ellipse.StrokeInsideIff | kernel/boot_splash.c:658-666 | the outline of a row lies in the filled ellipse exactly when rx times the root of the row is at least ry, and holds the row's ends |
| Ellipse.TopRowOutside | kernel/boot_splash.c:658-666 | in the top row of every ellipse it does not |
| Ellipse.StrokedIff | kernel/boot_splash.c:658-666 | the outline of a row is the filled pixels within one of either end; of a row of one pixel, that and its neighbours |
| Ellipse.NegativeIff | kernel/boot_splash.c:648-666 | with a negative rx, which pixels are filled and which stroked, without the division |
| Ellipse.Canvas.Px | kernel/boot_splash.c:455-459 | one pixel, or none off the screen |
| Ellipse.Canvas.FillEllipse | kernel/boot_splash.c:648-656 | the loops write exactly the filled pixels on screen |
| Ellipse.Canvas.StrokeEllipse | kernel/boot_splash.c:658-666 | the loop writes exactly the outline pixels on screen |
| Terminal.CursorAdvances | kernel/screen.c:71-90 | the cursor only moves forward over the transcript |
| Terminal.NeverOverwritten | kernel/screen.c:71-100 | every character stays where it was put, in the colour of that moment |
| Terminal.ElseBlank | kernel/screen.c:50-68 | cells of the transcript where nothing was put are spaces |
| Terminal.PutMoves | kernel/screen.c:71-90 | a newline goes to column 0 of the next row, any other character to the next cell, after column 79 to the next row; a new row is spaces in the current colour, and no other cell changes |
| Terminal.ClearedIs | kernel/screen.c:32-42 | a cleared screen is 25 rows of 80 spaces in the current colour, cursor in the corner |
| Terminal.PutAllRuns | kernel/screen.c:92-100 | writing a string is the run that goes on with its characters, in order |
| Terminal.Screen.Clear | kernel/screen.c:32-42 | the buffer shows a cleared transcript in the current colour |
| Terminal.Screen.SetColor | kernel/screen.c:44-47 | the colour changes and no cell does |
| Terminal.Screen.Scroll | kernel/screen.c:50-68 | every row moves up one and the last is blank in the current colour |
| Terminal.Screen.PutChar | kernel/screen.c:71-90 | the buffer is the last 25 rows of the transcript with one more character, cursor inside 25 by 80 |
| Terminal.Screen.WriteString | kernel/screen.c:92-100 | the same for a whole string, up to its terminator |
| Terminal.Screen.WriteLine | kernel/screen.c:102-106 | the same with a newline |
| Names.OrderTotal | drivers/framework/io_manager.c:138-176 | the comparison is 0 exactly for equal texts, changes sign when swapped, and is transitive |
| Names.OrderFirst | drivers/framework/io_manager.c:161-175 | a text comes before its continuations, and before one with a larger character at the first difference |
| Names.MissingFirst | drivers/framework/io_manager.c:149-155 | a missing string or buffer comes before one that is there, and equals another missing one |
| Names.CompareUnicode | drivers/framework/io_manager.c:138-176 | the loop computes the lexicographic order, null pointers and null buffers first |
| IoManager.Driver.Unlink | drivers/framework/device.c:101-113 | the pointer-to-pointer loop removes the device where it is and keeps the order of the rest |
| IoManager.Manager.OnOneList | drivers/framework/device.c:66-82 | every allocated device is on the list of the object it names and of no other; the object has not been freed exactly when the device is no orphan |
| IoManager.Manager.CreateDevice | drivers/framework/device.c:25-86 | the device heads its owner's list with the name it was given, or none without a name or buffer, and its attributes; on bad arguments or no memory nothing changes |
| IoManager.Manager.DeleteDevice | drivers/framework/device.c:92-123 | the device leaves its owner's list and is freed, also when its owner was freed before it; no other list changes |
| IoManager.Manager.CreateDriver | drivers/framework/io_manager.c:45-85 | the driver heads the list with the devices its entry routine made and the count goes up; on failure no driver is registered; devices are orphaned exactly when the routine fails with some left |
| IoManager.FailingEntryLeaks | drivers/framework/io_manager.c:73-77 | making a device and failing is such a routine; deleting it first, as the display driver does, is not |
| IoManager.Manager.DeleteDriver | drivers/framework/io_manager.c:91-128 | the driver and its devices are gone, the count follows the list, other drivers keep their devices; devices are orphaned exactly when its unload routine leaves some |
| IoManager.FindName | drivers/framework/io_manager.c:208-219 | the first matching name of one list |
| IoManager.Lookup | drivers/framework/io_manager.c:205-224 | the first match in list order, or nothing exactly when nothing matches |
| IoManager.FoundIsNamed | drivers/framework/io_manager.c:205-224 | what is found has a buffer with the very characters asked for, so a nameless device never is |
| IoManager.NewestFound | drivers/framework/io_manager.c:205-224 | a driver's newest device is found under its own name exactly when no driver before has a device of that name |
| IoManager.Manager.CreateThenOpen | drivers/framework/device.c:71-83 | creating a named device and opening it by its name gives that very device, exactly when no driver before has one of that name |
| IoManager.Manager.GetDeviceObjectPointer | drivers/framework/io_manager.c:187-225 | the nested walk returns that device, or the failure status |

## Left out

- Machine.InterruptKeepsViews: does not model the selector checks of segment loads and of IRET; segment registers are pushed and popped as 16-bit values, zero-extended.
- Runs.RunSound: does not model a kernel stack that overflows into its neighbour; a running thread keeps room for an interrupt.
- Cpu.Processor.Irq0TimerHandler: stack words are physical memory; the active directory is not consulted (`StackSelfMappedIff` says when that makes no difference). The interrupt acknowledgement is port I/O.
- SchedulerSpec.TraceCoherent: pids, tids and tick counts are unbounded numbers, so their wrap-around is not modelled.
- UserCopy.CopyFromUser: the destination is an array of its own; a destination inside the page tables or the source buffer is not modelled. Reads of physical addresses without RAM give 0xFF.
- Bresenham.HalfPixel: coordinates are unbounded numbers; the driver's method requires that no 32-bit computation of the line overflows.
- VgaScreen.Screen.FillRect: x + width and y + height do not wrap around; bytes outside the adapter's 64 KB window are excluded by precondition.
- IoManager.Manager.CreateDriver: an entry or unload routine is a list of device creations and deletions on its own driver object; what else it may do is not modelled.
- Processes.ProcessManager.CreateKernel: names, main-thread pointers and privilege fields of processes are not modelled.
- Port I/O (serial, PIC, PIT, RTC, PS/2), VGA registers other than the map mask, mode switching, and the debug output inside the modelled functions.
- The TLB, caches, HLT and real time; interrupts arrive at any moment, CR3 is a variable.
- The system call entry and dispatcher, the GUI, the console, fonts, cursors and boot animations, the boot loaders, and the heap and string routines.
- Segment and interrupt descriptor packing.
