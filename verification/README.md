# Senob kernel: a verified model

Senob is a small x86 SMP kernel. This project models its stateful core and proves what the kernel relies on:

- **The process registry** (`RbTree`, `TreeHeap`, `ProcessIds`, `ProcessRegistry`): the parent-linked red-black tree of
  `process.c`, updated in place. A node is a heap object with `left`, `right`, `parent` and `color`; the leaves are one
  shared sentinel; the root's parent is null. `Registry.Valid` says that these fields are exactly the parent-linked image
  of a red-black tree, sorted by pid, over exactly the registered processes. Every creation and every deletion keeps it.
  The sentinel's own `parent` is left free, because `rbTransplant` writes it, and deletion proves that it is right
  whenever the fixup loop reads it.
- **The scheduler** (`SchedSpec`, `SchedSafety`, `SchedProgress`, `SchedFill`, `SchedAgeing`, `SchedHandler`,
  `SchedBoot`, `SchedulerState`, `KernelFill`): the run-queue arrays of `sched.c` as a class, each method tied to a step on values, and
  theorems over every run of such steps on any CPUs, among them the runs of the timer handler, which ages and schedules.
- **The spinlock** (`Spinlock`): one transition per instruction of `acquire`, `release` and `holding`, any number of CPUs,
  any interleaving, timer interrupts, nested handlers and switches to other threads included.
- **Smaller algorithms**: two-word arithmetic (`LongLong`), LEB128 (`Leb128`), the GDB packet and hex codec (`GdbPacket`),
  the keyboard ring with its line reader (`KeyRing`), and the kernel's formatted output (`KernelWrite`). `Words` holds
  powers of two and C's bitwise operators on unsigned values, defined bit by bit.

How the model is laid out:

- The two mirrored halves of each fixup loop are written once, with the side as an argument; both halves of the source
  are instances. They differ in one place (only the left half of `fixupInsert` tests the uncle against the sentinel), and
  the model keeps that difference. Ghost arguments of the form (context, subtree) name the position of a node in the tree.
- Equal pids are possible once the 32-bit counter has wrapped, so the tree theorems hold for a non-strict order. Pids are
  shown to be pairwise different up to the 2^32-th creation, which makes the order strict.
- Threads are identifiers with a map from identifiers to their fields, and the chain of threads of each process is a
  sequence. `OwnChains` says that a thread is in the chain of its owner alone, and there once. `schedule` creates an idle
  process at each call; its first thread is the argument `idle`, a new identifier. `IdleProcess` shows that the lookup
  finds that new process until the counter wraps.
- `offered` and `dropped` record history that the kernel does not keep: which threads were ever handed to `enqueueThread`,
  and which of those found the queue full the last time.
- Word sizes are written out: `% WORD`, `% TWO_64`, and in `LongLong` a word of `W(h)` values with half-words of `h` bits,
  for every `h`. `__clz_tab` stands for the bit-length table.
- Input from devices is an argument: key presses as a sequence of arrivals, serial bytes as sequences, the words on the
  stack above `fmt` and the strings they point to as functions. The theorems on packets hold for a buffer of any size;
  the source's is 2048 bytes (`libc/newlib-4.5.0/libgloss/debug.h:138`).

What the proofs show about the code that its comments do not say:

- A run queue never reuses its slots (`sched.c:27-33`), so each of a CPU's five queues serves at most 64 threads in the
  life of the system (`QueueRunsDry`). Every schedule call that does not run a new idle thread uses up a slot, so once
  they are used up only new idle threads run (`CpuRunsDry`). No schedule call and no ageing pass brings back a thread that
  met a full queue (`DroppedForever`); only the fill can, if the thread was dropped before it (`DroppedOffered`).
- `ageThreads` decrements the unsigned priority without a floor (`sched.c:119`). The decrement wraps exactly for a thread
  that has waited long enough at priority 0 (`PassPromotes`). That never happens, but for a reason that is nowhere in the
  code: a thread in queue p is dispatched after at most 64p + 3 ageing passes, and its priority would wrap only after
  52(p + 1); at the lowest queue that is 259 against 260. `NeverWraps` proves it for every run of timer handlers: on the
  CPUs in use before the fill, and on any CPU after it.
- `release` clears `cpu` after `locked` (`spinlock.c:59-61`), so it can wipe the record of the next owner, whose test in
  `release` then fails although it holds the lock. `LateClear` shows that this can happen whenever the lock is free and
  two CPUs are outside its code, and `RecordTrusted` that the record can be relied on exactly on a machine with one CPU
  and on the CPU with APIC id 0. Mutual exclusion is not affected: it rests on `locked` alone.
- `getpacket` answers `+` without comparing the checksum (`ChecksumIgnored`), contrary to the protocol comment at the head
  of `debug.c` (lines 28-31). A packet that fills the buffer is dropped, unless its byte sum happens to be 255, the initial
  value of `xmitcsum`; then it is returned without a terminating NUL (`OverLong`, with one packet of each kind for the
  real buffer size in `OverLongReturned` and `OverLongDropped`).

## Model

| member | source | states |
|---|---|---|
| ProcessRegistry.Registry.constructor | kernel/arch/x86-32/sys/process.c:696-705 | The prepared sentinel and empty root form a valid registry of no processes, with the pid counters at 100 and 20 |
| ProcessRegistry.Registry.LeftRotate | kernel/arch/x86-32/sys/process.c:63-86 | Exactly the links of x, its right child, the inner grandchild and x's parent (or root) change, to those of the rotated subtree; the sentinel is not touched |
| ProcessRegistry.Registry.RightRotate | kernel/arch/x86-32/sys/process.c:89-112 | The mirror image of the left rotation, in the same exact terms |
| ProcessRegistry.Registry.Rotate | kernel/arch/x86-32/sys/process.c:62-112 | Anywhere in the tree, a rotation turns the heap image of a tree into the heap image of the rotated tree |
| RbTree.RotationOrder | kernel/arch/x86-32/sys/process.c:62-112 | Rotations, whatever the colours, keep the in-order sequence of processes |
| TreeHeap.RotationLocated | kernel/arch/x86-32/sys/process.c:62-112 | The pointer changes of a rotation keep all parent and child links consistent, in the subtree and around it |
| RbTree.RecolorStep | kernel/arch/x86-32/sys/process.c:130-137 | Recolouring parent, uncle and grandparent keeps order and black heights and moves the only possible red-red edge two levels up |
| ProcessRegistry.Registry.Recolor | kernel/arch/x86-32/sys/process.c:130-137 | Case 1 of the insertion fixup, in place, does that |
| RbTree.InnerStep | kernel/arch/x86-32/sys/process.c:140-145 | Rotating an inner grandchild to the outside keeps the fixup invariant and the order |
| ProcessRegistry.Registry.Inner | kernel/arch/x86-32/sys/process.c:140-145 | Case 2, in place, for either side |
| RbTree.OuterStep | kernel/arch/x86-32/sys/process.c:146-149 | Recolouring and rotating the grandparent ends the violation and keeps order and black heights |
| ProcessRegistry.Registry.Outer | kernel/arch/x86-32/sys/process.c:146-149 | Case 3, in place, for either side |
| ProcessRegistry.Registry.RotateCase | kernel/arch/x86-32/sys/process.c:138-150 | Cases 2 and 3 together keep the invariant and bring the focus nearer to the root |
| ProcessRegistry.Registry.FixupInsertStep | kernel/arch/x86-32/sys/process.c:123-174 | One turn of the loop keeps the invariant and the order and reduces the depth of the focus, in every case on either side |
| ProcessRegistry.Registry.FixupInsert | kernel/arch/x86-32/sys/process.c:117-177 | The loop terminates in a red-black tree with the same in-order sequence |
| ProcessRegistry.Registry.FindLeaf | kernel/arch/x86-32/sys/process.c:187-202 | The descent ends at the leaf with every pid up to the new one before it and every larger pid after it |
| ProcessRegistry.Registry.LinkLeaf | kernel/arch/x86-32/sys/process.c:204-220 | The new red node hangs at that leaf, and all links are consistent |
| ProcessRegistry.Registry.RbInsert | kernel/arch/x86-32/sys/process.c:182-224 | Insertion keeps the registry valid; the new process stands after every process with a pid up to its own and before all others, and nothing else moves |
| ProcessRegistry.Registry.RbSearch | kernel/arch/x86-32/sys/process.c:228-242 | Finds a registered process with the pid; the sentinel means that no process has it; 2^steps <= (n + 1)^2 for n processes, that is at most 2*log2(n + 1) steps |
| RbTree.HeightBound | kernel/arch/x86-32/sys/process.c:228-242 | A red-black tree of n processes has height h with 2^h <= (n + 1)^2, that is h <= 2*log2(n + 1) |
| RbTree.PlugRedBlack | kernel/arch/x86-32/sys/process.c:117-177 | A tree is red-black exactly when the subtree at any position is and its surroundings fit its black height and colour |
| ProcessRegistry.Registry.TreeMinimum | kernel/arch/x86-32/sys/process.c:248-255 | Finds the first process of the subtree in order, which has no left child |
| ProcessRegistry.Registry.RbTransplant | kernel/arch/x86-32/sys/process.c:261-277 | Changes exactly the one pointer to u and the parent of v; the parent of the sentinel is written when v is the sentinel |
| TreeHeap.TransplantLocated | kernel/arch/x86-32/sys/process.c:261-277 | After it the heap is the image of the tree with u's subtree replaced by v's |
| ProcessRegistry.Registry.TransplantAt | kernel/arch/x86-32/sys/process.c:373-384 | Replacing a node by its only child leaves a consistent tree with the child in focus, its parent pointer right even if it is the sentinel |
| ProcessRegistry.Registry.CutSuccessor | kernel/arch/x86-32/sys/process.c:398-399 | The successor leaves the right subtree, the rest stays linked, and the sentinel's parent is right if it took the place |
| ProcessRegistry.Registry.DetachSuccessor | kernel/arch/x86-32/sys/process.c:396-402 | What remains of the right subtree hangs below the detached successor |
| ProcessRegistry.Registry.TakePlace | kernel/arch/x86-32/sys/process.c:404-410 | The successor takes over exactly the parent, left subtree and colour of z |
| TreeHeap.Spliced | kernel/arch/x86-32/sys/process.c:385-411 | After that the heap is the image of the tree with z replaced by its successor |
| ProcessRegistry.Registry.SpliceSuccessor | kernel/arch/x86-32/sys/process.c:385-411 | Both ways of moving the successor (child of z or deeper) give the same tree, with the successor's right subtree in focus |
| RbTree.SuccessorColors | kernel/arch/x86-32/sys/process.c:385-416 | Moving the successor with z's colour leaves a red-black tree, or one black level missing exactly at the focus if the successor was black |
| RbTree.SuccessorOrder | kernel/arch/x86-32/sys/process.c:385-411 | Moving the successor removes z alone from the in-order sequence |
| ProcessRegistry.Registry.Unlink | kernel/arch/x86-32/sys/process.c:368-411 | In all three shapes z alone leaves the sequence, and a colour defect remains only if a black node went |
| RbTree.RedSiblingStep | kernel/arch/x86-32/sys/process.c:288-295 | Case 1 keeps order and the missing black level at the focus and leaves it with a black sibling and a red parent |
| ProcessRegistry.Registry.RedSibling | kernel/arch/x86-32/sys/process.c:288-295 | Case 1, in place, for either side |
| RbTree.BlackSiblingStep | kernel/arch/x86-32/sys/process.c:296-301 | Case 2 moves the missing black level one up |
| ProcessRegistry.Registry.BlackSibling | kernel/arch/x86-32/sys/process.c:296-301 | Case 2, in place; a red parent then ends the loop |
| RbTree.NearRedStep | kernel/arch/x86-32/sys/process.c:304-311 | Case 3 keeps everything and makes the far nephew red |
| ProcessRegistry.Registry.NearRed | kernel/arch/x86-32/sys/process.c:304-311 | Case 3, in place, for either side |
| RbTree.FarRedStep | kernel/arch/x86-32/sys/process.c:312-317 | Case 4 repairs the black heights of the whole tree and keeps the order |
| ProcessRegistry.Registry.FarRed | kernel/arch/x86-32/sys/process.c:312-317 | Case 4, in place, for either side |
| ProcessRegistry.Registry.RedNephew | kernel/arch/x86-32/sys/process.c:302-318 | Cases 3 and 4 together end in a red-black tree with the same sequence |
| ProcessRegistry.Registry.BlackSiblingCases | kernel/arch/x86-32/sys/process.c:296-318 | Cases 2 to 4 keep the invariant and either go up one level or finish at the root |
| ProcessRegistry.Registry.DeleteFixupStep | kernel/arch/x86-32/sys/process.c:283-352 | One turn of the loop keeps the invariant and the order and reduces one measure that covers all cases on both sides |
| ProcessRegistry.Registry.DeleteFixup | kernel/arch/x86-32/sys/process.c:281-354 | The loop terminates in a red-black tree with the same in-order sequence, with the sentinel black |
| ProcessRegistry.Registry.DeleteNode | kernel/arch/x86-32/sys/process.c:368-417 | Unlinking and fixing up remove z alone and leave a red-black tree |
| ProcessRegistry.Registry.RemoveFound | kernel/arch/x86-32/sys/process.c:368-417 | The registry is valid without z and the order of the others is unchanged |
| ProcessRegistry.Registry.RbDelete | kernel/arch/x86-32/sys/process.c:359-417 | Deletion keeps the registry valid and removes exactly one process, which has the pid; an absent pid changes no field |
| RbTree.RemovedTree | kernel/arch/x86-32/sys/process.c:359-417 | A tree whose sequence lost one process is sorted and holds all nodes but that one |
| ProcessRegistry.Registry.GetProcessID | kernel/arch/x86-32/sys/process.c:26-38 | Advances the counter of the kind of process, modulo 2^32, and leaves the other counter alone |
| ProcessRegistry.Registry.CreateProcess | kernel/arch/x86-32/sys/process.c:508-531 | Every creation keeps the registry valid and its pids accounted for; up to the 2^32-th creation the new pid is one nobody has |
| ProcessRegistry.Registry.IdleProcess | kernel/arch/x86-32/sys/process.c:718-722 | Creating the idle process and looking its pid up gives that very process until the counter wraps |
| ProcessRegistry.Registry.InOrderTraversal | kernel/arch/x86-32/sys/process.c:51-60 | Visits the in-order sequence of any subtree |
| ProcessRegistry.Registry.Traverse | kernel/arch/x86-32/sys/process.c:51-60 | From the root, every registered process is visited once and in pid order, strictly so until the pid counter has wrapped |
| ProcessIds.PidsRepeat | kernel/arch/x86-32/sys/process.c:26-38 | Two creations get the same pid if and only if their numbers differ by a multiple of 2^32 |
| ProcessIds.FreshPid | kernel/arch/x86-32/sys/process.c:508-516 | Before the 2^32-th creation the next pid is not in use, whatever was deleted meanwhile |
| ProcessIds.InsertedPids | kernel/arch/x86-32/sys/process.c:182-224 | Insertion adds its pid to the set; the pids stay pairwise different if and only if it is a fresh one |
| ProcessIds.HandedOutInsert | kernel/arch/x86-32/sys/process.c:508-531 | A creation keeps the account of which call made which pid |
| ProcessIds.RemovedPids | kernel/arch/x86-32/sys/process.c:359-417 | With distinct pids, removing a process removes exactly its pid |
| ProcessIds.DeletedPids | kernel/arch/x86-32/sys/process.c:359-417 | With distinct pids, what rbDelete does to the sequence takes exactly the given pid out of the set |
| ProcessIds.HandedOutDelete | kernel/arch/x86-32/sys/process.c:359-417 | A deletion keeps the account, so runs that mix creations and deletions keep handing out fresh pids |
| SchedulerState.Scheduler.constructor | kernel/arch/x86-32/sys/sched.c:9-14 | The zeroed globals are the empty scheduler |
| SchedulerState.Scheduler.EnqueueThread | kernel/arch/x86-32/sys/sched.c:20-35 | The arrays after the call are those of the enqueue step, for a full queue too |
| SchedulerState.Scheduler.DequeueThread | kernel/arch/x86-32/sys/sched.c:39-52 | Returns the oldest thread of the first non-empty queue; the arrays are those of the dequeue step |
| SchedulerState.Scheduler.DemotePriority | kernel/arch/x86-32/sys/sched.c:56-60 | Lowers the thread by one level unless it is at the last, and changes no other thread |
| SchedulerState.Scheduler.LeastLoadedCPU | kernel/arch/x86-32/sys/sched.c:64-78 | Returns the first of the CPUs in use with the least load |
| SchedulerState.Scheduler.EnqueueRunnableThread | kernel/arch/x86-32/sys/sched.c:82-97 | Offers the runnable threads of the chain one by one, each to the least loaded CPU of that moment |
| SchedulerState.Scheduler.AgeLevel | kernel/arch/x86-32/sys/sched.c:113-123 | Ages the live slots of one queue in slot order |
| SchedulerState.Scheduler.AgeThreads | kernel/arch/x86-32/sys/sched.c:107-125 | Ages the queues from the last up to queue 1 |
| SchedulerState.Scheduler.RequeueCurrent | kernel/arch/x86-32/sys/sched.c:135-143 | The running thread becomes runnable, is demoted and goes to the tail of its queue |
| SchedulerState.Scheduler.DispatchThread | kernel/arch/x86-32/sys/sched.c:153-155 | The chosen thread runs on this CPU and its waiting time starts over |
| SchedulerState.Scheduler.Schedule | kernel/arch/x86-32/sys/sched.c:130-155 | The arrays after the call are those of the schedule step on values |
| SchedulerState.Scheduler.SliceOver | kernel/arch/x86-32/interrupts/idt.c:146-150 | At the end of a time slice the arrays go through one ageing pass and one schedule step on the same CPU |
| KernelFill.FillRunqueuesFromBST | kernel/arch/x86-32/sys/sched.c:100-103 | Walking the tree fills the queues from the chains of all processes in pid order; from empty queues every runnable thread of every process, and no other, is offered once and has one place or is recorded as dropped |
| KernelFill.ThreadsInOrder | kernel/arch/x86-32/sys/sched.c:82-103 | The threads of each process come after those of the processes before it, in the order of its chain |
| KernelFill.ThreadsDistinct | kernel/arch/x86-32/sys/sched.c:82-103 | Over the processes of the tree no thread comes up twice, if each is in its owner's chain alone and there once |
| KernelFill.ProcessesOffered | kernel/arch/x86-32/sys/sched.c:82-103 | The offered threads after the fill are exactly the runnable threads of the processes |
| KernelFill.BootedSystem | kernel/arch/x86-32/sys/sched.c:82-161 | After any slices on the CPUs in use, the fill from the process tree and any run of timer handlers, each thread of a process that was runnable at the fill has one place unless it is recorded as dropped, and its priority is in 0..4 |
| SchedSafety.EnqueueInv | kernel/arch/x86-32/sys/sched.c:20-35 | Enqueueing a runnable thread that has no place and was not dropped before restores the invariant |
| SchedSafety.OfferInv | kernel/arch/x86-32/sys/sched.c:82-97 | So does offering a runnable thread that has no place, be it for the first time or after it was dropped |
| SchedSafety.DequeueInv | kernel/arch/x86-32/sys/sched.c:39-52 | Dequeueing keeps it, but for the thread taken, which then has no place |
| SchedSafety.ScheduleInv | kernel/arch/x86-32/sys/sched.c:130-161 | schedule keeps: one place per thread over all queues and CPUs; queued threads runnable; running exactly the current threads; each offered thread queued, current or recorded as dropped; head <= tail <= 64; load counters equal to the queued threads |
| SchedSafety.AgeInv | kernel/arch/x86-32/sys/sched.c:107-125 | ageThreads keeps the same |
| SchedSafety.RunInv | kernel/arch/x86-32/sys/sched.c:107-161 | So does every run of both on any CPUs in any order |
| SchedFill.FillThenRun | kernel/arch/x86-32/sys/sched.c:82-161 | After the one fill and any run, each thread offered at boot is in one queue slot or running on one CPU, unless it is recorded as dropped |
| SchedFill.FillOffers | kernel/arch/x86-32/sys/sched.c:82-103 | From empty queues the fill offers exactly the runnable threads of the list and ends in the invariant |
| SchedFill.FillOrder | kernel/arch/x86-32/sys/sched.c:82-103 | Every queue receives its threads in the order of the list, which follows the pids |
| SchedFill.FillBalanced | kernel/arch/x86-32/sys/sched.c:64-103 | At every moment of the fill the loads of the first ncpus CPUs differ by one at most, dropped threads or not |
| SchedProgress.ScheduleLevels | kernel/arch/x86-32/sys/sched.c:130-161 | A schedule call takes the oldest thread of one queue on its own CPU, moves no other head, and only appends at tails |
| SchedProgress.Fifo | kernel/arch/x86-32/sys/sched.c:20-52 | Over any run, the threads a queue serves are a contiguous stretch of its accepted threads, in that order, from its head on |
| SchedProgress.CloserByOne | kernel/arch/x86-32/sys/sched.c:39-52 | A schedule call on the CPU dispatches the thread in slot k of queue p or reduces its distance by exactly one |
| SchedProgress.NoStarvation | kernel/arch/x86-32/sys/sched.c:130-161 | That thread is dispatched within (sum over q < p of 64 - head[q]) + (k - head[p]) + 1 schedule calls on its CPU, whatever else happens |
| SchedProgress.QueueRunsDry | kernel/arch/x86-32/sys/sched.c:27-33 | From any state on, a queue serves at most 64 - head further threads, ever |
| SchedProgress.CpuRunsDry | kernel/arch/x86-32/sys/sched.c:27-52 | Over any run, the schedule calls on a CPU that do not run the new idle thread are exactly as many as the slots used up in its five queues |
| SchedProgress.DroppedForever | kernel/arch/x86-32/sys/sched.c:27-31 | A dropped thread is not queued or current again in any run of schedule and ageThreads, which leaves only the fill to offer it once more |
| SchedAgeing.AgeExact | kernel/arch/x86-32/sys/sched.c:107-125 | A pass ages each thread queued below level 0 of the CPU exactly once and no other thread |
| SchedAgeing.PassPromotes | kernel/arch/x86-32/sys/sched.c:107-125 | A pass sends no thread to a lower queue if and only if no thread queued below level 0 of the CPU has waited long enough at priority 0 |
| SchedAgeing.AgeingPromotes | kernel/arch/x86-32/sys/sched.c:116-119 | For one thread that has waited long enough: its next queue is not lower if and only if its priority is not 0; priority 0 wraps to the lowest queue |
| SchedAgeing.AgedRounds | kernel/arch/x86-32/sys/sched.c:116-122 | n times 52 passes over a thread that is not dispatched subtract n from its priority, modulo 2^32 |
| SchedAgeing.OnlyWaits | kernel/arch/x86-32/sys/sched.c:116-122 | A thread that is not runnable keeps its priority, however often it is aged |
| SchedHandler.TicksAreRuns | kernel/arch/x86-32/interrupts/idt.c:139-150 | Every run of timer handlers is a run of schedule and ageThreads, so all theorems about those hold of it |
| SchedHandler.AgedPaced | kernel/arch/x86-32/sys/sched.c:113-123 | A pass over a queued thread uses up one of the passes that the balance grants it, and its priority does not wrap |
| SchedHandler.RequeuePaced | kernel/arch/x86-32/sys/sched.c:135-143 | Putting the running thread back into its queue keeps the balance of the threads queued there and gives it one of its own |
| SchedHandler.PickPaced | kernel/arch/x86-32/sys/sched.c:145-155 | Dequeueing and dispatching brings each thread that stays queued one call nearer, and the dispatched one can later go back without upsetting the balance |
| SchedHandler.HandleBalance | kernel/arch/x86-32/interrupts/idt.c:146-150 | The timer handler keeps, on all CPUs: passes behind a queued thread plus schedule calls still before it are at most 64p + 3 in queue p |
| SchedBoot.QuietTick | kernel/arch/x86-32/interrupts/idt.c:146-150 | Before the fill the handler leaves all queues empty and every thread that never ran at priority 0 |
| SchedBoot.EarlyTick | kernel/arch/x86-32/interrupts/idt.c:146-150 | Before the fill the one thread of each CPU goes round the queues 1 to 4, and a thread is dropped only when queue 4 and its own queue are used up |
| SchedBoot.EarlyBoot | kernel/arch/x86-32/interrupts/idt.c:139-150 | Up to 64 time slices on each CPU before the fill drop no thread |
| SchedBoot.SomeNarrow | kernel/arch/x86-32/sys/sched.c:20-35 | One of the CPUs in use takes threads from the fill into queue 0 only |
| SchedBoot.FillLoads | kernel/arch/x86-32/sys/sched.c:64-103 | So no CPU has more than 65 threads after the fill, dropped threads offered again included |
| SchedBoot.FillBalance | kernel/arch/x86-32/sys/sched.c:82-103 | The fill establishes the balance, whatever time slices the CPUs in use had before |
| SchedBoot.NeverWraps | kernel/arch/x86-32/sys/sched.c:107-161 | In every run of timer handlers from boot with one fill in it, every priority stays in 0..4 and no ageing pass raises a priority number; before the fill the handlers run on the CPUs in use, after it on any |
| SchedBoot.DroppedOffered | kernel/arch/x86-32/sys/sched.c:20-35 | A dropped thread that is offered again gets a place if and only if its queue on that CPU has a slot |
| Spinlock.NextHolders | kernel/arch/x86-32/sys/spinlock.c:34-76 | Only the exchange that reads 0 makes an owner, only the release store unmakes one, and `locked` follows |
| Spinlock.NextInv | kernel/arch/x86-32/sys/spinlock.c:34-76 | Every instruction, call, timer interrupt, return and thread switch keeps the lock's invariant |
| Spinlock.RunInv | kernel/arch/x86-32/sys/spinlock.c:7-76 | So does every interleaving |
| Spinlock.MutualExclusion | kernel/arch/x86-32/sys/spinlock.c:34-64 | In every run from initLock at most one control flow of one CPU owns the lock, `locked` is 1 exactly while one does, and the owner's CPU takes no interrupt |
| Spinlock.OwnerProgress | kernel/arch/x86-32/sys/spinlock.c:46-59 | The owner's next step is always enabled and brings its release nearer |
| Spinlock.RecordTrusted | kernel/arch/x86-32/sys/spinlock.c:52-76 | In every run from initLock an owner past the store of its id finds that id on record, if and only if the machine has one CPU or the owner's APIC id is 0 |
| Spinlock.RecordReliable | kernel/arch/x86-32/sys/spinlock.c:52-76 | State by state: the owner finds its id on record in every continuation if and only if it is there now and no other CPU is about to clear it (or its id is 0) |
| Spinlock.AcquireFree | kernel/arch/x86-32/sys/spinlock.c:34-48 | Undisturbed, acquire on a free lock reaches the critical section with the lock taken, the caller on record and interrupts off |
| Spinlock.AcquireHeld | kernel/arch/x86-32/sys/spinlock.c:34-43 | Undisturbed, acquire on a taken lock learns from holding whether the caller is on record, and then spins with interrupts off as long as the lock stays taken |
| Spinlock.ReleaseDone | kernel/arch/x86-32/sys/spinlock.c:52-64 | Undisturbed, release on a taken lock learns from holding whether the caller is on record, and leaves the lock free, nobody on record and interrupts on |
| Spinlock.ReleaseUnheld | kernel/arch/x86-32/sys/spinlock.c:52-64 | On a free lock it learns that nobody holds it, and leaves the same |
| Spinlock.LockAndUnlock | kernel/arch/x86-32/sys/spinlock.c:34-64 | Acquire and release on a free lock, undisturbed, leave no trace but that interrupts are on |
| Spinlock.InterruptReturn | kernel/arch/x86-32/interrupts/idt.c:41-49 | A timer interrupt turns interrupts off, and the return from it restores the CPU |
| Spinlock.ReleaseStored | kernel/arch/x86-32/sys/spinlock.c:52-59 | Undisturbed, release reaches a free lock that still records the releasing CPU |
| Spinlock.LateClear | kernel/arch/x86-32/sys/spinlock.c:59-61 | From every state in which the lock is free and two CPUs are outside its code, some run ends with the second owning the lock and not on record |
| LongLong.UdivQrnndC | libc/newlib-4.5.0/include/longlong.h:1665-1700 | For every word size and every normalised d > n1: q*d + r = n1*2^W + n0 with r < d, and q fits a word |
| LongLong.Digit | libc/newlib-4.5.0/include/longlong.h:1672-1683 | One half-word digit: exact quotient and remainder of r0*B + n by d |
| LongLong.CorrectDigit | libc/newlib-4.5.0/include/longlong.h:1676-1683 | From an estimate up to two too large, the corrections reach the true digit, the wrap-around of r + d being the sign that one correction was enough |
| LongLong.AddSsaaaa | libc/newlib-4.5.0/include/longlong.h:1597-1605 | The two-word sum, exact modulo the two-word range |
| LongLong.SubDdmmss | libc/newlib-4.5.0/include/longlong.h:1607-1615 | The two-word difference, exact modulo the two-word range |
| LongLong.UmulPpmm | libc/newlib-4.5.0/include/longlong.h:1630-1655 | w1 and w0 are words with w1*2^W + w0 = u*v; no carry is lost |
| LongLong.TopBitMask | libc/newlib-4.5.0/include/longlong.h:1625-1626 | The negated top bit masks a word to itself or to 0 |
| LongLong.UmulFromSmul | libc/newlib-4.5.0/include/longlong.h:1617-1628 | The form built on the signed product gives the same two words |
| LongLong.TableShift | libc/newlib-4.5.0/include/longlong.h:1726-1737 | The shift leaves a table index of at most eight bits, nonzero unless the shift is 0, for small and large words alike |
| LongLong.CountLeadingZeros | libc/newlib-4.5.0/include/longlong.h:1720-1742 | c with 2^(W-1-c) <= x < 2^(W-c); for 0 the word size |
| LongLong.CountTrailingZeros | libc/newlib-4.5.0/include/longlong.h:1744-1754 | The largest k such that 2^k divides x, for nonzero x |
| Leb128.ReadUleb128ToUint64 | libc/newlib-4.5.0/include/leb128.h:53-76 | Returns the length of the number and its value modulo 2^64; a truncated buffer gives 0 and stores nothing |
| Leb128.ReadSleb128ToInt64 | libc/newlib-4.5.0/include/leb128.h:86-111 | The same for signed numbers, with the sign extended from the last byte |
| Leb128.SkipLeb128 | libc/newlib-4.5.0/include/leb128.h:119-134 | Returns the same length as the two readers, on buffers of any size |
| Leb128.UlebRoundTrip | libc/newlib-4.5.0/include/leb128.h:53-76 | For every uint64_t and any following bytes, the decoded value and length are those encoded |
| Leb128.SlebRoundTrip | libc/newlib-4.5.0/include/leb128.h:86-111 | The same for every int64_t |
| Leb128.Examples | libc/newlib-4.5.0/include/leb128.h:53-111 | The encoding is that of the examples in section 7.6 of DWARF version 4 |
| Leb128.EncodedULength | libc/newlib-4.5.0/include/leb128.h:53-76 | An unsigned number below 2^(7k) takes at most k bytes |
| Leb128.EncodedSLength | libc/newlib-4.5.0/include/leb128.h:86-111 | A signed number of 7k bits takes at most k bytes |
| GdbPacket.Mem2Hex | libc/newlib-4.5.0/libgloss/debug.c:187-211 | Writes the two hex digits of each byte, then a NUL, and nothing beyond it |
| GdbPacket.Hex2Mem | libc/newlib-4.5.0/libgloss/debug.c:217-238 | Writes the bytes that the digit pairs denote and nothing beyond them |
| GdbPacket.HexRoundTrip | libc/newlib-4.5.0/libgloss/debug.c:187-238 | Reading back what was written as hex digits gives the same bytes |
| GdbPacket.HexDigits | libc/newlib-4.5.0/libgloss/debug.c:149-178 | The digits of both cases have their values, NUL counts as 0, and nothing else is a digit |
| GdbPacket.OrPair | libc/newlib-4.5.0/libgloss/debug.c:228-229 | Shifting and or-ing the two digits gives 16 times the first plus the second; a character that is no digit sets bits |
| GdbPacket.ChecksumSum | libc/newlib-4.5.0/libgloss/debug.c:342-350 | Checksums add up modulo 256 over the parts of a payload |
| GdbPacket.ChecksumOne | libc/newlib-4.5.0/libgloss/debug.c:342-350 | The checksum of one byte is that byte |
| GdbPacket.ExampleFrame | libc/newlib-4.5.0/libgloss/debug.c:340-354 | "E01" goes out as "$E01#a6" |
| GdbPacket.PutPacket | libc/newlib-4.5.0/libgloss/debug.c:333-358 | For every sequence of replies and every line: the bytes sent and how the call ends, with a '+', waiting, or at a payload byte that the line refuses |
| GdbPacket.SendPayload | libc/newlib-4.5.0/libgloss/debug.c:341-350 | Sends '$' and the payload up to its NUL or the first refused byte, and sums it modulo 256 |
| GdbPacket.SentUntilAck | libc/newlib-4.5.0/libgloss/debug.c:340-357 | If no byte is refused, the same frame goes out once for each reply up to the first '+', or once more than there are replies if none is a '+' |
| GdbPacket.SentFrames | libc/newlib-4.5.0/libgloss/debug.c:340-357 | Whatever is refused or answered, the line carries whole frames and at its end at most a part of one, and a part exactly if a byte was refused |
| GdbPacket.FramesReceived | libc/newlib-4.5.0/libgloss/debug.c:270-358 | A receiver reads each frame of such a series as the same packet |
| GdbPacket.FillBuffer | libc/newlib-4.5.0/libgloss/debug.c:288-295 | Stores the 7-bit bytes up to '#' or to the end of the buffer, with their sum modulo 256 |
| GdbPacket.GetPacket | libc/newlib-4.5.0/libgloss/debug.c:270-327 | Over any input: a packet in the caller's buffer with a NUL after it and one '+' sent, a full buffer without a NUL, or a wait for more input |
| GdbPacket.HighBitIgnored | libc/newlib-4.5.0/libgloss/debug.c:280-304 | The outcome does not depend on the high bits of the input, and the payload has none |
| GdbPacket.OverLong | libc/newlib-4.5.0/libgloss/debug.c:288-298 | A packet as long as the buffer is returned unterminated if its byte sum is 255 modulo 256, and otherwise dropped with what follows read as new input |
| GdbPacket.OverLongReturned | libc/newlib-4.5.0/libgloss/debug.c:282-326 | One that is returned, for the buffer of 2048 bytes |
| GdbPacket.OverLongDropped | libc/newlib-4.5.0/libgloss/debug.c:282-326 | One that is dropped, for the buffer of 2048 bytes |
| GdbPacket.PacketRoundTrip | libc/newlib-4.5.0/libgloss/debug.c:270-358 | After any noise without '$', getpacket recovers every 7-bit payload without '#' that fits the buffer, and the sent check digits denote the byte sum modulo 256 |
| GdbPacket.ChecksumIgnored | libc/newlib-4.5.0/libgloss/debug.c:302-309 | It does so whatever two bytes stand for the checksum |
| KeyRing.Ring.constructor | drivers/keyboard/keyboard.c:152-159 | The zeroed ring is the empty queue |
| KeyRing.Ring.AddKeyToBuffer | drivers/keyboard/keyboard.c:153-159 | The ring is a queue of at most 127 keys; a key that does not fit is lost |
| KeyRing.AddAllFits | drivers/keyboard/keyboard.c:153-159 | Of the keys that arrive, the first ones up to 127 in the ring are queued, all of them and in order |
| KeyRing.Ring.GetKeyFromBuffer | drivers/keyboard/keyboard.c:162-170 | Takes the oldest key out, or returns 0 for an empty ring |
| KeyRing.Ring.GetKeyInterrupted | drivers/keyboard/keyboard.c:162-170 | With any number of key presses between the slot read and the tail update, the key read is the oldest and the queue is as if those keys had come first |
| KeyRing.Ring.ConsoleReadLine | kernel/libk/libk.c:247-273 | Stores the keys of the line followed by NUL and leaves the rest in the ring, for any arrival of keys before each poll and between its slot read and its tail update; it returns len - 1 characters, or fewer that end in a newline |
| KeyRing.ReadLineEnds | kernel/libk/libk.c:252-270 | A line is finished exactly when it has len - 1 keys or ends in a newline, which is its only one, and it has no zero |
| KeyRing.LineTaken | kernel/libk/libk.c:252-270 | For any keys: the line is made of the nonzero ones among the first keys of the accepted stream, and all the others are left |
| KeyRing.Ring.WaitForKey | kernel/libk/libk.c:255-261 | The inner loop takes keys out up to the first that is not 0 |
| KeyRing.AwaitLine | kernel/libk/libk.c:252-270 | The key that the inner loop waits for is the first of the line, and the rest of the line follows from what it leaves |
| KeyRing.LineIsPrefix | kernel/libk/libk.c:247-273 | For nonzero keys the line is the accepted stream up to its first newline or up to len - 1 keys, and no key is lost or taken twice |
| KernelWrite.NumeralValue | kernel/libk/stdiok.c:218-231 | The printed digits denote the number, most significant first |
| KernelWrite.NumeralLead | kernel/libk/stdiok.c:218-231 | No redundant leading zero |
| KernelWrite.WordNumeralLength | kernel/libk/stdiok.c:169 | A 32-bit number has at most eleven digits in radix 8, 10 or 16 |
| KernelWrite.FillDigits | kernel/libk/stdiok.c:218-223 | The buffer holds the numeral from its last digit to its first |
| KernelWrite.Drain | kernel/libk/stdiok.c:229-231 | Emits the buffer in reverse |
| KernelWrite.PrintfNumber | kernel/libk/stdiok.c:168-234 | Emits the sign and the numeral, twelve characters at most, and advances the argument pointer by the length modifier |
| KernelWrite.NumberRoundTrip | kernel/libk/stdiok.c:168-234 | For arguments of default length the text parses back to the argument, signed or unsigned |
| KernelWrite.Conversion | kernel/libk/stdiok.c:111-155 | Each conversion character prints its argument and moves the argument pointer as specified |
| KernelWrite.WriteFormat | kernel/libk/stdiok.c:67-164 | The loop over the format, up to its NUL, prints what the state machine specifies |
| KernelWrite.DoubledIsLiteral | kernel/libk/stdiok.c:67-164 | Text whose percent signs were doubled is printed as it was, and leaves the machine in its start state |
| KernelWrite.PiecesPrinted | kernel/libk/stdiok.c:67-164 | A format made of literal text and conversions with any length prefixes prints the texts of its pieces one after the other, the argument pointer going on from each to the next |
| KernelWrite.FormatPrinted | kernel/libk/stdiok.c:67-164 | So the whole output of such a format is the texts of its pieces |
| KernelWrite.UnsignedPrinted | kernel/libk/stdiok.c:136-152 | %x, %X and %p print the word in radix 16, %o in radix 8 and %u in radix 10, with any length prefix, and the next conversion reads the word 1, 2 (l) or 4 (ll) further on |
| KernelWrite.SignedPrinted | kernel/libk/stdiok.c:130-135 | %d and %i print the word as a signed number; with ll the sign is that of the 64-bit number and only the low word of the magnitude is printed |
| KernelWrite.CharPrinted | kernel/libk/stdiok.c:114-117 | %c prints the low byte of the word and goes one word on |
| KernelWrite.TextPrinted | kernel/libk/stdiok.c:118-126 | %s prints the string at the word and goes one word on, or two with l and ll |
| KernelWrite.PercentPrinted | kernel/libk/stdiok.c:127-129 | A percent sign prints itself and takes no argument |
| KernelWrite.UnknownPrinted | kernel/libk/stdiok.c:153-154 | Any other character prints nothing and takes no argument |
| KernelWrite.Unfinished | kernel/libk/stdiok.c:75-110 | A format that ends inside a conversion prints no more |
| KernelWrite.ExampleNumbers | kernel/libk/stdiok.c:67-234 | "%x" of 255 is "ff", "%d" of -42 is "-42" and "%o" of 8 is "10" |
| KernelWrite.ExamplePrefixes | kernel/libk/stdiok.c:84-110 | The second number in "%hu%u", "%hhu%u", "%lu%u" and "%llu%u" is the word 1, 1, 2 and 4 |
| KernelWrite.LiteralAndNumber | kernel/libk/stdiok.c:67-164 | Between two such texts, %d prints a numeral that reads back as the argument |

## Left out

- ProcessRegistry.Registry.RbDelete: does not model the three `kfree` calls after the unlinking; a deleted process simply leaves the registry.
- ProcessRegistry.Registry.CreateProcess: allocation gives a fresh object that never fails; threads, page directories and program loading are left out, and so is the race of two CPUs on the unlocked counter.
- SchedulerState.Scheduler.Schedule: stops at the state it hands to `switchTask`; the register switch, the TSS stack pointer and `ticksSinceLastSwitch` are not modelled. After the pid counter has wrapped, the idle lookup may find an older process (`IdleProcess` states the bound), which this step does not model.
- KernelFill.FillRunqueuesFromBST: the traversal collects the processes first and then makes the callbacks; the callbacks do not touch the tree, so the order of the calls is the same.
- Leb128.ReadUleb128ToUint64: numbers of more than ten bytes are excluded, as the shift by 64 or more is undefined in C.
- Leb128.ReadSleb128ToInt64: the same exclusion.
- GdbPacket.Mem2Hex: memory faults are excluded.
- GdbPacket.Hex2Mem: memory faults are excluded.
- GdbPacket.PutPacket: the results of `outbyte` for '$', '#' and the check digits are ignored, as the source does; those bytes are taken as sent.
- GdbPacket.GetPacket: the checksum comparison and the sequence-id code after the unconditional return (lines 310-323) are unreachable and not modelled.
- KeyRing.Ring.ConsoleReadLine: the buffer holds at least one byte, as the source writes one even for `len` 0.
- KernelWrite.NumberRoundTrip: is stated for default length; the printer keeps only 32 bits of longer arguments, as `SignedPrinted` states. The negation of the smallest integers wraps, where C leaves it undefined.
- LongLong.CountLeadingZeros: the contents of `__clz_tab` are taken as the bit lengths of 0 to 255; the table itself is in another file.
- SchedBoot.NeverWraps: a handler is one step, as is the fill; handlers of different CPUs that run at the same time are taken in some order. Before the fill only the CPUs with a number below `ncpus` take time slices, as only those are started (`kernel/arch/x86-32/sys/smp.c:36-42`).
- Spinlock: a thread switch continues any frame that an interrupt can have suspended; which thread it is, is not tracked. Weak memory ordering is not modelled; the instructions are sequentially consistent steps. The tree methods are proved for one caller at a time, which is what the lock provides to insertion and search.
- Thread creation, the thread lists of a process and thread ids: appending to a list.
- execve, exit and fork: stubs, or paths around the scheduler.
- Paging, the heap, assembly entry points, LAPIC, PIT, PIC, GDT and IDT set-up and processor start-up: hardware state.
- Screen drawing, fonts and windows: characters written by the kernel are appended to a sequence instead.
- Scancode tables, file descriptors, FatFs glue, `string.c` and `memory.c`: table lookups, wrappers and simple loops.
- The remaining newlib headers and libgloss stubs, `obstack.h` and `objalloc.h`: declarations, or code whose other half is elsewhere.
