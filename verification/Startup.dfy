/**
 Booting, from bare memory to the first instant of a run: pmm_init, vmm_init, proc_init, the processes
 kernel_main creates before scheduler_init, and scheduler_init.
 */
module Startup {
  import opened Basics
  import opened Frames
  import opened SchedulerSpec
  import opened Machine
  import opened Runs
  import opened Processes
  import opened FrameUse
  import opened Creation
  import AddressSpaces
  import IdentityMap
  import Paging
  import Pmm
  import Scheduler
  import UserProcesses
  import UserSpaces
  import Vmm

  // ---- before scheduler_init ------------------------------------------------------------------------

  /** The machine once scheduler_init has run: the boot code goes on as the idle thread in slot 0. */
  function Launched(m: Machine): Machine
    requires |m.sched.tcbs| > 0
  {
    m.(sched := Started(m.sched, 0))
  }

  /** What the kernel keeps between proc_init and scheduler_init: the idle thread is not queued yet, and
      as soon as it is, the theorems about runs apply. */
  predicate Booting(m: Machine) {
    |m.sched.tcbs| > 0 && 0 !in m.sched.queue && m.sched.running == Some(0) && Sound(Launched(m), 0)
  }

  /** Booting over address spaces whose directories are dirs, with the kernel stacks in frames of data. */
  ghost predicate BootInOrder(m: Machine, v: Paging.Vm, dirs: set<nat>, pid: nat) {
    Booting(m) && InOrder(Launched(m), 0, v, dirs, pid)
  }

  /** proc_init and the load of ESP0 start it, on the stack the boot code was given. */
  lemma BootStarts(s: Sched, tid: nat, top: Word, saved: Word, pageDir: Word, r: Regs, mem: Memory, boot: Stack)
    requires |s.tcbs| > 0 && |s.procs| > 0 && s.queue == [] && tid != 0 && saved != 0
    requires pageDir != 0 && s.cr3 == pageDir
    requires 4 * |mem| < TWO_TO_THE_32 && boot.lo + ROOM <= boot.hi <= |mem|
    requires r.cs == KERNEL_CODE && r.ss == KERNEL_DATA && r.esp % 4 == 0 && boot.lo + ROOM <= r.esp / 4 <= boot.hi
    ensures Booting(Machine(r, mem, AfterInit(s, tid, top, saved, pageDir).(esp0 := top), map[0 := boot]))
  {
    var m := Launched(Machine(r, mem, AfterInit(s, tid, top, saved, pageDir).(esp0 := top), map[0 := boot]));
    assert m.sched.queue[0] == 0;
    assert FindProc(m.sched.procs, 0) == Some(0);
    assert ThreadAt(m, 0);
  }

  /** The order of the queue does not matter to soundness. */
  lemma Reordered(m: Machine, q: seq<nat>, idle: nat)
    requires Sound(m, idle) && Distinct(q) && forall i :: i in q <==> i in m.sched.queue
    ensures Sound(m.(sched := m.sched.(queue := q)), idle)
  {
    var m' := m.(sched := m.sched.(queue := q));
    ReorderedCoherent(m.sched, q, idle);
    forall i | i in m'.stacks ensures ThreadAt(m', i) {
      assert ThreadAt(m, i);
    }
  }

  lemma ReorderedCoherent(s: Sched, q: seq<nat>, idle: nat)
    requires Coherent(s, idle) && Distinct(q) && forall i :: i in q <==> i in s.queue
    ensures Coherent(s.(queue := q), idle)
  {
    var s' := s.(queue := q);
    forall k | 0 <= k < |q| ensures q[k] < |s.tcbs| {
      assert q[k] in s.queue;
    }
    assert HasHome(s', s.current.value) && HomeDir(s', s.current.value) == HomeDir(s, s.current.value);
    forall i | i in q && i != s.current.value ensures Resumable(s', i) {
      assert Resumable(s, i);
    }
  }

  /** Marking a used slot as running does not change which slot is taken next. */
  lemma {:induction false} SameSlot(a: seq<Tcb>, b: seq<Tcb>, dead: bool, i: nat)
    requires i <= |a| == |b| && forall k :: 0 <= k < |a| ==> (a[k].tid == 0 || b[k].tid == 0 ==> a[k] == b[k])
    ensures FreeThread(a, dead, i) == FreeThread(b, dead, i)
    decreases |a| - i
  {
    if i < |a| {
      SameSlot(a, b, dead, i + 1);
    }
  }

  /** scheduler_init after a creation, or a creation after scheduler_init: the same but for the order of
      the queue. */
  lemma LaunchCommutes(m: Machine, e: Event, mem: Memory) returns (q: seq<nat>)
    requires |m.sched.tcbs| > 0 && m.sched.tcbs[0].tid != 0 && m.sched.running == Some(0) && 0 !in m.sched.queue
    requires e.Create? && e.slot == ThreadSlot(m.sched.tcbs) < |m.sched.tcbs| && FreeProc(m.sched.procs, 0) < |m.sched.procs|
    requires e.slot !in m.sched.queue && Distinct(m.sched.queue)
    ensures ThreadSlot(Launched(m).sched.tcbs) == e.slot
    ensures var l := Populated(Launched(m), e, mem);
      && Launched(Populated(m, e, mem)) == l.(sched := l.sched.(queue := q))
      && Distinct(q) && forall i :: i in q <==> i in l.sched.queue
  {
    var l := Launched(m);
    SameSlot(m.sched.tcbs, l.sched.tcbs, true, 0);
    SameSlot(m.sched.tcbs, l.sched.tcbs, false, 0);
    q := m.sched.queue + [e.slot] + [0];
    AppendDistinct(m.sched.queue, e.slot);
    AppendDistinct(m.sched.queue + [e.slot], 0);
    assert Launched(Populated(m, e, mem)).sched.tcbs == Populated(l, e, mem).sched.tcbs;
  }

  /** What a booting machine says of its queue, and of the slot a creation would take. */
  lemma BootQueue(m: Machine)
    requires Booting(m)
    ensures Distinct(m.sched.queue) && m.sched.tcbs[0].tid != 0
    ensures ThreadSlot(Launched(m).sched.tcbs) == ThreadSlot(m.sched.tcbs)
    ensures ThreadSlot(m.sched.tcbs) !in m.sched.queue && ThreadSlot(m.sched.tcbs) != 0
  {
    var l := Launched(m);
    var q := m.sched.queue;
    forall j: nat, k: nat | j < k < |q| ensures Differ(q, j, k) {
      assert Differ(l.sched.queue, j, k);
    }
    SameSlot(m.sched.tcbs, l.sched.tcbs, true, 0);
    SameSlot(m.sched.tcbs, l.sched.tcbs, false, 0);
    forall i | i in q ensures i != ThreadSlot(m.sched.tcbs) {
      assert i in l.sched.queue && Resumable(l.sched, i);
    }
  }

  // ---- what the boot code does ----------------------------------------------------------------------

  /** No thread but the idle one, which the boot code becomes, can tell m' from m. */
  predicate Undisturbed(m: Machine, m': Machine)
    requires |m.sched.tcbs| > 0 && |m'.sched.tcbs| > 0
  {
    forall i {:trigger SameView(Launched(m), Launched(m'), i)} :: i in m.stacks && i != 0 ==> SameView(Launched(m), Launched(m'), i)
  }

  /** Thread e.slot is set up to start as event e says. */
  predicate SetUp(m: Machine, e: Event) { e.Create? && |m.sched.tcbs| > 0 && e.slot != 0 && StartsAs(Launched(m), e) }

  lemma StaysSetUp(m: Machine, m': Machine, e: Event)
    requires SetUp(m, e) && |m'.sched.tcbs| > 0 && Undisturbed(m, m')
    ensures SetUp(m', e)
  {
    assert SameView(Launched(m), Launched(m'), e.slot);
  }

  /** What the boot code writes without touching data changes nothing of that. */
  lemma BootWorks(m: Machine, v: Paging.Vm, v': Paging.Vm, dirs: set<nat>, dirs': set<nat>, pid: nat)
    requires BootInOrder(m, v, dirs, pid)
    requires KeepsData(v, v', dirs, dirs') && Grounded(v', dirs') && v'.kernelDir == v.kernelDir && dirs <= dirs'
    ensures BootInOrder(m.(mem := v'.mem), v', dirs', pid) && Undisturbed(m, m.(mem := v'.mem))
  {
    var l := Launched(m);
    assert ThreadAt(l, 0);
    WorkInOrder(l, 0, v, v', dirs, dirs', pid, m.regs);
    EventKeeps(l, 0, Work(m.regs, v'.mem), l.(regs := m.regs, mem := v'.mem));
    assert Launched(m.(mem := v'.mem)) == l.(regs := m.regs, mem := v'.mem);
  }

  /** Threads do not see the order of the queue. */
  lemma ReorderedView(m: Machine, q: seq<nat>, i: nat)
    requires i in m.stacks && ThreadAt(m, i)
    ensures SameView(m, m.(sched := m.sched.(queue := q)), i)
  {
  }

  /** A kernel stack made and a process created before scheduler_init: the thread is ready to run when it
      comes. */
  lemma BootCreates(m: Machine, v: Paging.Vm, v': Paging.Vm, dirs: set<nat>, n: Newcomer)
    requires BootInOrder(m, v, dirs, n.pid) && Creatable(m, v, v', n)
    ensures n.top / 4 >= Paging.ENTRIES
    ensures var m' := Populated(m, Creates(m, n), v'.mem);
      BootInOrder(m', v', dirs, n.pid + 1) && Undisturbed(m, m') && SetUp(m', Creates(m, n))
  {
    var l := Launched(m);
    BootQueue(m);
    CreationIsEvent(l, 0, v, v', dirs, n);
    var e := Creates(m, n);
    EventKeeps(l, 0, e, Populated(l, e, v'.mem));
    var q := LaunchCommutes(m, e, v'.mem);
    Reordered(Populated(l, e, v'.mem), q, 0);
    var l' := Populated(l, e, v'.mem);
    forall i | i in m.stacks && i != 0 ensures SameView(l, l'.(sched := l'.sched.(queue := q)), i) {
      assert SameView(l, l', i);
      ReorderedView(l', q, i);
    }
    ReorderedView(l', q, e.slot);
  }

  /** A process slot given up before scheduler_init. */
  lemma BootRefuses(m: Machine, v: Paging.Vm, dirs: set<nat>, pid: nat, dir: Word)
    requires BootInOrder(m, v, dirs, pid) && FreeProc(m.sched.procs, 0) < |m.sched.procs|
    ensures var m' := m.(sched := m.sched.(procs := m.sched.procs[FreeProc(m.sched.procs, 0) := Pcb(false, pid, dir)]));
      BootInOrder(m', v, dirs, pid + 1) && Undisturbed(m, m')
  {
    var l := Launched(m);
    var e := Refuse(FreeProc(m.sched.procs, 0), Pcb(false, pid, dir));
    RefusalInOrder(l, 0, v, dirs, pid, dir);
    var l' := l.(sched := l.sched.(procs := l.sched.procs[e.entry := e.pcb]));
    EventKeeps(l, 0, e, l');
    assert l' == Launched(m.(sched := m.sched.(procs := m.sched.procs[e.entry := e.pcb])));
  }

  /** A user process created before scheduler_init: its page tables, its stack and its thunk page. */
  lemma BootCreatesUser(m: Machine, v: Paging.Vm, dirs: set<nat>, codePhys: Word, codeSize: Word, r: UserSpaces.Space,
                        mid: Paging.Vm, v': Paging.Vm, n: Newcomer)
    requires BootInOrder(m, v, dirs, n.pid) && HasSlots(m.sched) && Paging.InRam(v.mem, Paging.Page(v.kernelDir))
    requires r == UserSpaces.UserSpace(v, codePhys, codeSize, n.entry) && UserMade(r, mid, v', n)
    ensures n.top / 4 >= Paging.ENTRIES
    ensures var m' := Populated(m, Creates(m, n), v'.mem);
      && BootInOrder(m', v', dirs + {Paging.Page(r.dir)}, n.pid + 1) && Undisturbed(m, m') && SetUp(m', Creates(m, n))
  {
    var d, dirs' := Paging.Page(r.dir), dirs + {Paging.Page(r.dir)};
    UserSpaces.SpaceKeeps(v, dirs, codePhys, codeSize, n.entry);
    BootWorks(m, v, r.vm, dirs, dirs', n.pid);
    var m1 := m.(mem := r.vm.mem);
    BootCreates(m1, r.vm, mid, dirs', n);
    var e := Creates(m, n);
    var m2 := Populated(m1, e, mid.mem);
    MapKeeps(mid, dirs', d, UserSpaces.THUNK, UserSpaces.THUNK, UserSpaces.USER_READABLE);
    BootWorks(m2, mid, v', dirs', dirs', n.pid + 1);
    var m3 := m2.(mem := v'.mem);
    StaysSetUp(m2, m3, e);
    UndisturbedTwice(m, m1, m2);
    UndisturbedTwice(m, m2, m3);
  }

  lemma UndisturbedTwice(m: Machine, m1: Machine, m2: Machine)
    requires |m.sched.tcbs| > 0 && |m1.sched.tcbs| > 0 && |m2.sched.tcbs| > 0 && Undisturbed(m, m1) && Undisturbed(m1, m2)
    ensures Undisturbed(m, m2)
  {
    forall i | i in m.stacks && i != 0 ensures SameView(Launched(m), Launched(m2), i) {
      assert SameView(Launched(m), Launched(m1), i) && SameView(Launched(m1), Launched(m2), i);
    }
  }

  /** A user process that could not be created. */
  lemma BootGivesUpUser(m: Machine, v: Paging.Vm, dirs: set<nat>, codePhys: Word, codeSize: Word, entry: Word, pid: nat)
    requires BootInOrder(m, v, dirs, pid) && FreeProc(m.sched.procs, 0) < |m.sched.procs|
    requires Paging.InRam(v.mem, Paging.Page(v.kernelDir))
    ensures var r := UserSpaces.UserSpace(v, codePhys, codeSize, entry); var i := FreeProc(m.sched.procs, 0);
      var m' := m.(mem := r.vm.mem, sched := m.sched.(procs := m.sched.procs[i := Pcb(false, pid, r.dir)]));
      BootInOrder(m', r.vm, WithDirectory(dirs, r.dir), pid + 1) && Undisturbed(m, m')
  {
    var r := UserSpaces.UserSpace(v, codePhys, codeSize, entry);
    UserSpaces.SpaceKeeps(v, dirs, codePhys, codeSize, entry);
    BootWorks(m, v, r.vm, dirs, WithDirectory(dirs, r.dir), pid);
    var m1 := m.(mem := r.vm.mem);
    BootRefuses(m1, r.vm, WithDirectory(dirs, r.dir), pid, r.dir);
    UndisturbedTwice(m, m1, m1.(sched := m.sched.(procs := m.sched.procs[FreeProc(m.sched.procs, 0) := Pcb(false, pid, r.dir)])));
  }

  // ---- in place -----------------------------------------------------------------------------------

  /** The kernel's own state is that of machine m, which is booting in order. */
  ghost predicate Stands(pm: ProcessManager, m: Machine, dirs: set<nat>)
    reads pm, pm.sched, pm.sched.threads, pm.sched.procs, pm.vmm, pm.vmm.ram, pm.vmm.pmm, pm.vmm.pmm.bitmap
  {
    && pm.sched.Valid() && pm.Disjoint() && UserProcesses.Known(pm.vmm, dirs) && pm.nextTid > 0 && pm.vmm.kernelDir != 0
    && m.sched == pm.sched.Abs() && BootInOrder(m, pm.vmm.Abs(), dirs, pm.nextPid)
  }

  /** Only threads that were set up are queued. */
  lemma StandsTidy(pm: ProcessManager, m: Machine, dirs: set<nat>)
    requires Stands(pm, m, dirs)
    ensures pm.Tidy() && Paging.InRam(pm.vmm.Abs().mem, Paging.Page(pm.vmm.kernelDir))
  {
    forall t | t in pm.sched.threads && t.place >= 0 ensures t.tid != 0 {
      var i :| 0 <= i < |pm.sched.threads| && pm.sched.threads[i] == t;
      assert pm.sched.PlaceAt(i) && m.sched.tcbs[i] == t.Record();
      pm.sched.PlaceInQueue(t);
      QueuedIsSetUp(m, t.place);
    }
  }

  lemma QueuedIsSetUp(m: Machine, k: nat)
    requires Booting(m) && k < |m.sched.queue|
    ensures m.sched.queue[k] < |m.sched.tcbs| && m.sched.tcbs[m.sched.queue[k]].tid != 0
  {
    assert Launched(m).sched.queue[k] == m.sched.queue[k] != 0;
    assert Resumable(Launched(m).sched, m.sched.queue[k]);
  }

  /** proc_create_kernel before scheduler_init. */
  method AddKernelProcess(pm: ProcessManager, entry: Word, ghost m: Machine, ghost dirs: set<nat>)
    returns (p: Option<nat>, ghost m': Machine, ghost n: Newcomer)
    requires Stands(pm, m, dirs) && (HasSlots(m.sched) ==> AddressSpaces.HasFrame(pm.vmm.pmm.Abs()))
    modifies pm, pm.sched, pm.sched.threads, pm.sched.procs, pm.vmm.ram, pm.vmm.pmm`used, pm.vmm.pmm.bitmap
    ensures Stands(pm, m', dirs) && (p.Some? <==> HasSlots(m.sched))
    ensures KernelAdded(m, m', old(pm.vmm.Abs()), pm.vmm.Abs(), p, n, entry)
  {
    ghost var v, pid, tid := pm.vmm.Abs(), pm.nextPid, pm.nextTid;
    StandsTidy(pm, m, dirs);
    ghost var top, saved;
    p, top, saved := pm.CreateKernel(entry);
    n := Newcomer(false, pid, tid, v.kernelDir, entry, 0, top, saved);
    m' := AddsKernel(m, pm.sched.Abs(), v, pm.vmm.Abs(), dirs, p, n, pm.nextPid, pm.nextTid);
  }

  /** Machine m has become m' by the creation of kernel process n, if there was one. */
  ghost predicate KernelAdded(m: Machine, m': Machine, v: Paging.Vm, v': Paging.Vm, p: Option<nat>, n: Newcomer, entry: Word) {
    && m'.regs == m.regs && |m.sched.tcbs| > 0 && |m'.sched.tcbs| > 0 && Undisturbed(m, m')
    && (p.Some? ==>
          && !n.user && n.entry == entry && StackMade(v, v', false, entry, 0, n.top, n.saved)
          && n.top / 4 >= Paging.ENTRIES && HasSlots(m.sched) && m' == Populated(m, Creates(m, n), v'.mem) && SetUp(m', Creates(m, n)))
  }

  lemma AddsKernel(m: Machine, s': Sched, v: Paging.Vm, v': Paging.Vm, dirs: set<nat>, p: Option<nat>, n: Newcomer, pid': nat, tid': nat)
    returns (m': Machine)
    requires BootInOrder(m, v, dirs, n.pid) && (HasSlots(m.sched) ==> AddressSpaces.HasFrame(v.pmm)) && !n.user && n.userEsp == 0
    requires KernelOutcome(m.sched, s', v, v', p, n.pid, pid', n.tid, tid', n.entry, n.top, n.saved)
    requires n.tid != 0 && n.pageDir == v.kernelDir != 0
    ensures m'.sched == s' && BootInOrder(m', v', dirs, pid') && KernelAdded(m, m', v, v', p, n, n.entry)
  {
    if p.Some? {
      BootCreates(m, v, v', dirs, n);
      m' := Populated(m, Creates(m, n), v'.mem);
    } else if FreeProc(m.sched.procs, 0) < |m.sched.procs| {
      BootRefuses(m, v, dirs, n.pid, v.kernelDir);
      m' := m.(sched := s');
    } else {
      BootStays(m, v, dirs, n.pid);
      m' := m;
    }
  }

  lemma BootStays(m: Machine, v: Paging.Vm, dirs: set<nat>, pid: nat)
    requires BootInOrder(m, v, dirs, pid)
    ensures Undisturbed(m, m)
  {
    forall i | i in m.stacks && i != 0 ensures SameView(Launched(m), Launched(m), i) {
      assert ThreadAt(Launched(m), i);
    }
  }

  /** Machine m has become m' by the creation of user process n, if there was one. */
  ghost predicate UserAdded(m: Machine, m': Machine, r: UserSpaces.Space, mid: Paging.Vm, v': Paging.Vm, p: Option<nat>, n: Newcomer, entry: Word) {
    && m'.regs == m.regs && |m.sched.tcbs| > 0 && |m'.sched.tcbs| > 0 && Undisturbed(m, m')
    && (p.Some? ==>
          && r.ok && UserMade(r, mid, v', n) && n.entry == entry && n.userEsp == UserProcesses.USER_ESP
          && n.top / 4 >= Paging.ENTRIES && HasSlots(m.sched) && m' == Populated(m, Creates(m, n), v'.mem) && SetUp(m', Creates(m, n)))
  }

  /** The directories there are once proc_create_user has used a slot. */
  function DirsAfter(s: Sched, dirs: set<nat>, r: UserSpaces.Space): set<nat> {
    if FreeProc(s.procs, 0) < |s.procs| then WithDirectory(dirs, r.dir) else dirs
  }

  lemma AddsUser(m: Machine, s': Sched, v: Paging.Vm, v': Paging.Vm, mid: Paging.Vm, dirs: set<nat>, codePhys: Word, codeSize: Word,
                 r: UserSpaces.Space, p: Option<nat>, n: Newcomer, pid': nat, tid': nat)
    returns (m': Machine)
    requires BootInOrder(m, v, dirs, n.pid) && Paging.InRam(v.mem, Paging.Page(v.kernelDir))
    requires r == UserSpaces.UserSpace(v, codePhys, codeSize, n.entry) && (HasSlots(m.sched) && r.ok ==> AddressSpaces.HasFrame(r.vm.pmm))
    requires UserProcesses.Outcome(m.sched, s', v, v', mid, r, p, n.pid, n.tid, tid', n.entry, n.top, n.saved)
    requires pid' == if FreeProc(m.sched.procs, 0) < |m.sched.procs| then n.pid + 1 else n.pid
    requires n.tid != 0 && n.user && n.userEsp == UserProcesses.USER_ESP && n.pageDir == r.dir
    ensures m'.sched == s' && BootInOrder(m', v', DirsAfter(m.sched, dirs, r), pid') && UserAdded(m, m', r, mid, v', p, n, n.entry)
  {
    if p.Some? {
      BootCreatesUser(m, v, dirs, codePhys, codeSize, r, mid, v', n);
      m' := Populated(m, Creates(m, n), v'.mem);
    } else if FreeProc(m.sched.procs, 0) < |m.sched.procs| {
      BootGivesUpUser(m, v, dirs, codePhys, codeSize, n.entry, n.pid);
      m' := m.(mem := v'.mem, sched := s');
    } else {
      BootStays(m, v, dirs, n.pid);
      m' := m;
    }
  }

  /** proc_create_user before scheduler_init. */
  method AddUserProcess(pm: ProcessManager, codePhys: Word, codeSize: Word, entry: Word, ghost m: Machine, ghost dirs: set<nat>,
                        ghost r: UserSpaces.Space)
    returns (p: Option<nat>, ghost m': Machine, ghost n: Newcomer, ghost mid: Paging.Vm)
    requires Stands(pm, m, dirs) && Paging.InRam(pm.vmm.Abs().mem, Paging.Page(pm.vmm.kernelDir))
    requires r == UserSpaces.UserSpace(pm.vmm.Abs(), codePhys, codeSize, entry)
    requires HasSlots(m.sched) && r.ok ==> AddressSpaces.HasFrame(r.vm.pmm)
    modifies pm, pm.sched, pm.sched.threads, pm.sched.procs, pm.vmm.ram, pm.vmm.pmm`used, pm.vmm.pmm.bitmap
    ensures Stands(pm, m', DirsAfter(m.sched, dirs, r)) && (p.Some? <==> HasSlots(m.sched) && r.ok)
    ensures UserAdded(m, m', r, mid, pm.vmm.Abs(), p, n, entry)
  {
    ghost var v, pid, tid := pm.vmm.Abs(), pm.nextPid, pm.nextTid;
    StandsTidy(pm, m, dirs);
    ghost var top, saved;
    p, mid, top, saved := UserProcesses.CreateIn(pm, codePhys, codeSize, entry, dirs, r);
    n := Newcomer(true, pid, tid, r.dir, entry, UserProcesses.USER_ESP, top, saved);
    m' := AddsUser(m, pm.sched.Abs(), v, pm.vmm.Abs(), mid, dirs, codePhys, codeSize, r, p, n, pm.nextPid, pm.nextTid);
  }

  /** scheduler_init: the machine is one from which every run is sound. */
  method StartRunning(pm: ProcessManager, ghost m: Machine, ghost dirs: set<nat>)
    requires Stands(pm, m, dirs)
    modifies pm.sched, pm.sched.threads
    ensures pm.sched.Valid() && pm.vmm.Valid() && |m.sched.tcbs| > 0 && pm.sched.Abs() == Launched(m).sched
    ensures InOrder(Launched(m), 0, pm.vmm.Abs(), dirs, pm.nextPid) && pm.vmm.Abs() == old(pm.vmm.Abs())
  {
    RunningIdle(pm, m, dirs);
    pm.StartScheduler();
    assert unchanged(pm.vmm) && unchanged(pm.vmm.ram) && unchanged(pm.vmm.pmm) && unchanged(pm.vmm.pmm.bitmap);
  }

  lemma RunningIdle(pm: ProcessManager, m: Machine, dirs: set<nat>)
    requires Stands(pm, m, dirs)
    ensures var t := pm.sched.running; t != null && t.place < 0 && t.slot == 0 && pm.sched.esp0 == t.stackTop
  {
    var t := pm.sched.running;
    assert m.sched.tcbs[0] == t.Record();
    pm.sched.PlaceInQueue(t);
    assert Launched(m).sched.esp0 == Launched(m).sched.tcbs[0].stackTop;
  }

  /** The registers and the stack kernel_main runs with when it calls proc_init: a stack below the frames. */
  predicate BootContext(r: Regs, boot: Stack) {
    && boot.lo + ROOM <= boot.hi <= Paging.FIRST_PAGE * Paging.ENTRIES
    && r.cs == KERNEL_CODE && r.ss == KERNEL_DATA && r.esp % 4 == 0 && boot.lo + ROOM <= r.esp / 4 <= boot.hi
  }

  lemma BootBegins(s: Sched, tid: nat, top: Word, saved: Word, r: Regs, boot: Stack, v: Paging.Vm, v': Paging.Vm, dirs: set<nat>, idleEntry: Word)
    returns (m: Machine)
    requires |s.tcbs| > 0 && |s.procs| > 0 && s.queue == [] && tid != 0 && BootContext(r, boot)
    requires v.kernelDir != 0 && s.cr3 == v.kernelDir && Paging.Page(v.kernelDir) in dirs
    requires Grounded(v, dirs) && AddressSpaces.HasFrame(v.pmm) && 4 * |v.mem| < TWO_TO_THE_32
    requires StackMade(v, v', false, idleEntry, 0, top, saved)
    ensures m == Machine(r, v'.mem, AfterInit(s, tid, top, saved, v.kernelDir).(esp0 := top), map[0 := boot])
    ensures BootInOrder(m, v', dirs, 1)
  {
    UserProcesses.StackIsData(v, v', dirs, false, idleEntry, 0, top, saved);
    Paging.NextIsFresh(v, Paging.Owners({}, map[]), v'.pmm, Paging.Page(top - PAGE_SIZE));
    BootStarts(s, tid, top, saved, v.kernelDir, r, v'.mem, boot);
    m := Machine(r, v'.mem, AfterInit(s, tid, top, saved, v.kernelDir).(esp0 := top), map[0 := boot]);
  }

  /** proc_init and the load of ESP0, by boot code that runs with registers r on stack boot. */
  method Begin(pm: ProcessManager, kernelIdle: Word, ghost r: Regs, ghost boot: Stack, ghost dirs: set<nat>)
    returns (ghost m: Machine, ghost top: Word, ghost saved: Word)
    requires pm.sched.Valid() && pm.sched.queue == [] && |pm.sched.threads| > 0 && pm.sched.procs.Length > 0 && pm.nextTid > 0
    requires pm.Disjoint() && UserProcesses.Known(pm.vmm, dirs) && AddressSpaces.HasFrame(pm.vmm.pmm.Abs())
    requires pm.vmm.kernelDir != 0 && pm.sched.cr3 == pm.vmm.kernelDir && 4 * pm.vmm.ram.Length < TWO_TO_THE_32 && BootContext(r, boot)
    modifies pm, pm.sched, pm.sched.threads, pm.sched.procs, pm.vmm.ram, pm.vmm.pmm`used, pm.vmm.pmm.bitmap
    ensures Stands(pm, m, dirs) && m.regs == r && m.stacks == map[0 := boot] && |old(pm.sched.Abs()).tcbs| > 0 && |old(pm.sched.Abs()).procs| > 0
    ensures StackMade(old(pm.vmm.Abs()), pm.vmm.Abs(), false, kernelIdle, 0, top, saved)
    ensures m.sched == AfterInit(old(pm.sched.Abs()), old(pm.nextTid), top, saved, old(pm.vmm.kernelDir)).(esp0 := top)
  {
    ghost var s, v, tid := pm.sched.Abs(), pm.vmm.Abs(), pm.nextTid;
    top, saved := pm.Boot(kernelIdle);
    m := BootBegins(s, tid, top, saved, r, boot, v, pm.vmm.Abs(), dirs, kernelIdle);
    UserProcesses.StackIsData(v, pm.vmm.Abs(), dirs, false, kernelIdle, 0, top, saved);
  }

  // ---- kernel_main ----------------------------------------------------------------------------------

  /** The kernel's directory is the identity map, and there are frames to spare. */
  ghost predicate Prepared(v: Paging.Vm, o: Paging.Owners, k: nat, frames: nat) {
    && Paging.Separated(v, o) && AddressSpaces.KernelDir(v, o, k) && IdentityMap.IdentityUpTo(v, k, IdentityMap.IDENTITY_PAGES)
    && AddressSpaces.FreeFrames(v.pmm) >= frames
  }

  lemma PreparedIs(v: Paging.Vm, o: Paging.Owners, k: nat, frames: nat)
    requires Prepared(v, o, k, frames)
    ensures Grounded(v, o.dirs) && Paging.InRam(v.mem, Paging.Page(v.kernelDir)) && AddressSpaces.PresentFrom(v.mem, k, 0) == 32
    ensures frames > 0 ==> AddressSpaces.HasFrame(v.pmm)
  {
    SeparatedGrounded(v, o);
    AddressSpaces.TakeFrameCounts(v, Paging.Zeros());
    IdentityMap.PresentPrefix(v.mem, k, 0, 32);
  }

  /** A frame taken and filled costs a frame and changes no translation. */
  lemma FilledPrepared(v: Paging.Vm, p: Pmm.Pmm, n: nat, t: seq<Word>, o: Paging.Owners, k: nat, frames: nat, frames': nat)
    requires Prepared(v, o, k, frames) && frames == frames' + 1 && Paging.Next(v, p, n) && |t| == Paging.ENTRIES && Paging.InRam(v.mem, n)
    ensures Prepared(Paging.Filled(v, p, n, t), o, k, frames')
  {
    var v' := Paging.Filled(v, p, n, t);
    Paging.FilledSeparated(v, o, p, n, t);
    FrameCosts(v, p, n, t);
    forall x: nat | x < 0x10_0000
      ensures Paging.Walk(v'.mem, k, x) == if x < IdentityMap.IDENTITY_PAGES then Some(Paging.Mapping(x, true, false)) else None
    {
      Paging.FilledWalk(v, o, p, n, t, k, x);
    }
    forall i: nat | i < Paging.ENTRIES
      ensures Paging.Present(Paging.Peek(v'.mem, k, i)) <==> i < IdentityMap.Tables(IdentityMap.IDENTITY_PAGES)
    {
      Paging.FilledEntry(v, o, p, n, t, k, i);
    }
  }

  lemma FrameCosts(v: Paging.Vm, p: Pmm.Pmm, n: nat, t: seq<Word>)
    requires AddressSpaces.Roomy(v) && Paging.Next(v, p, n) && |t| == Paging.ENTRIES
    ensures p.total <= |p.bits| && AddressSpaces.FreeFrames(p) == AddressSpaces.FreeFrames(v.pmm) - 1
  {
    AddressSpaces.TakeFrameCounts(v, t);
    Paging.NextIsFresh(v, Paging.Owners({}, map[]), p, n);
  }

  /** So does a kernel stack. */
  lemma StackCosts(v: Paging.Vm, v': Paging.Vm, o: Paging.Owners, k: nat, frames: nat, frames': nat, user: bool, entry: Word, userEsp: Word, top: Word, saved: Word)
    requires Prepared(v, o, k, frames) && frames == frames' + 1 && StackMade(v, v', user, entry, userEsp, top, saved)
    ensures Prepared(v', o, k, frames')
  {
    PreparedIs(v, o, k, frames);
    var n := Paging.Page(top - PAGE_SIZE);
    UserProcesses.StackIsData(v, v', o.dirs, user, entry, userEsp, top, saved);
    Paging.NextIsFresh(v, o, v'.pmm, n);
    FilledPrepared(v, v'.pmm, n, Content(v'.mem, n), o, k, frames, frames');
  }

  /** pmm_init and vmm_init */
  method MemoryUp(ram: array<Word>, memUpperKb: nat) returns (vmm: Vmm.Manager, ghost o: Paging.Owners, ghost k: nat)
    requires ram.Length >= Paging.RAM_PAGES * Paging.ENTRIES
    requires 7168 <= memUpperKb && (memUpperKb + 1024) * 1024 < TWO_TO_THE_32 && Pmm.ManagedFrames(memUpperKb) >= 33
    modifies ram
    ensures fresh(vmm) && fresh(vmm.pmm) && fresh(vmm.pmm.bitmap) && vmm.ram == ram
    ensures UserProcesses.Known(vmm, o.dirs) && Prepared(vmm.Abs(), o, k, Pmm.ManagedFrames(memUpperKb) - 33) && k in o.dirs
  {
    var pmm := new Pmm.FrameAllocator(memUpperKb);
    vmm := new Vmm.Manager(ram, pmm);
    ghost var v := vmm.Abs();
    Pmm.TakenNone(v.pmm.bits, v.pmm.total);
    o, k := IdentityMap.IdentityMapped(v);
    vmm.Init();
    PreparedIs(vmm.Abs(), o, k, Pmm.ManagedFrames(memUpperKb) - 33);
  }

  /** The load of CR3 at the end of vmm_init. */
  method LoadCr3(sched: Scheduler.Dispatcher, dir: Word)
    requires sched.Valid()
    modifies sched`cr3
    ensures sched.Valid() && sched.Abs() == old(sched.Abs()).(cr3 := dir)
  {
    sched.cr3 := dir;
    forall i: nat | i < |sched.threads| ensures sched.PlaceAt(i) {
      assert old(sched.PlaceAt(i));
    }
    forall i: nat | i < |sched.queue| ensures sched.LinkAt(i) {
      assert old(sched.LinkAt(i));
    }
  }

  /** The first n slots of both tables are used, the others were never touched. */
  predicate FirstSlots(s: Sched, n: nat) {
    && n <= |s.tcbs| && n <= |s.procs|
    && (forall i :: 0 <= i < |s.tcbs| ==> if i < n then s.tcbs[i].tid != 0 else s.tcbs[i] == NO_THREAD)
    && (forall i :: 0 <= i < |s.procs| ==> if i < n then s.procs[i].active else s.procs[i] == NO_PROCESS)
  }

  lemma NextSlots(s: Sched, n: nat)
    requires FirstSlots(s, n) && n < |s.tcbs| && n < |s.procs|
    ensures HasSlots(s) && ThreadSlot(s.tcbs) == n && FreeProc(s.procs, 0) == n
  {
    assert s.tcbs[n] == NO_THREAD && s.procs[n] == NO_PROCESS;
    assert forall i :: 0 <= i < |s.tcbs| && s.tcbs[i].tid == 0 ==> i >= n && s.tcbs[i].state.Ready?;
    assert forall i :: 0 <= i < |s.procs| && !s.procs[i].active ==> i >= n;
  }

  lemma InitSlots(s: Sched, tid: nat, top: Word, saved: Word, pageDir: Word)
    requires |s.tcbs| > 0 && |s.procs| > 0 && tid != 0
    ensures var s' := AfterInit(s, tid, top, saved, pageDir).(esp0 := top);
      FirstSlots(s', 1) && |s'.tcbs| == |s.tcbs| && |s'.procs| == |s.procs| && s'.queue == s.queue
  {
  }

  /** A creation takes the next slot of both tables. */
  lemma TakesNextSlots(m: Machine, m': Machine, mem: Memory, n: Newcomer, slots: nat, slots': nat)
    requires FirstSlots(m.sched, slots) && slots' == slots + 1 <= |m.sched.tcbs| && slots' <= |m.sched.procs| && n.top / 4 >= Paging.ENTRIES
    requires HasSlots(m.sched) && m' == Populated(m, Creates(m, n), mem) && m'.regs == m.regs && Undisturbed(m, m') && SetUp(m', Creates(m, n))
    requires n.user ==> n.userEsp == UserProcesses.USER_ESP
    ensures FirstSlots(m'.sched, slots') && Added(m, m', Creates(m, n), slots, n.user, n.entry)
  {
    NextSlots(m.sched, slots);
    assert Launched(m').sched.tcbs[slots] == ThreadOf(n);
  }

  /** kernel_main between two creations: so many slots used, so many frames to spare. */
  ghost predicate Goes(pm: ProcessManager, m: Machine, o: Paging.Owners, k: nat, frames: nat, slots: nat)
    reads pm, pm.sched, pm.sched.threads, pm.sched.procs, pm.vmm, pm.vmm.ram, pm.vmm.pmm, pm.vmm.pmm.bitmap
  {
    Stands(pm, m, o.dirs) && Prepared(pm.vmm.Abs(), o, k, frames) && FirstSlots(m.sched, slots)
  }

  method BeginInOrder(pm: ProcessManager, kernelIdle: Word, ghost r: Regs, ghost boot: Stack, ghost o: Paging.Owners, ghost k: nat,
                      ghost frames: nat, ghost frames': nat) returns (ghost m: Machine)
    requires pm.sched.Valid() && pm.sched.queue == [] && |pm.sched.threads| > 0 && pm.sched.procs.Length > 0 && pm.nextTid > 0
    requires pm.Disjoint() && UserProcesses.Known(pm.vmm, o.dirs) && Prepared(pm.vmm.Abs(), o, k, frames) && frames == frames' + 1
    requires pm.sched.cr3 == pm.vmm.kernelDir && 4 * pm.vmm.ram.Length < TWO_TO_THE_32 && BootContext(r, boot)
    modifies pm, pm.sched, pm.sched.threads, pm.sched.procs, pm.vmm.ram, pm.vmm.pmm`used, pm.vmm.pmm.bitmap
    ensures Goes(pm, m, o, k, frames', 1) && m.regs == r && m.sched.queue == []
    ensures |m.sched.tcbs| == |pm.sched.threads| && |m.sched.procs| == pm.sched.procs.Length
  {
    ghost var v := pm.vmm.Abs();
    PreparedIs(v, o, k, frames);
    ghost var s, tid := pm.sched.Abs(), pm.nextTid;
    ghost var top, saved;
    m, top, saved := Begin(pm, kernelIdle, r, boot, o.dirs);
    InitSlots(s, tid, top, saved, v.kernelDir);
    StackCosts(v, pm.vmm.Abs(), o, k, frames, frames', false, kernelIdle, 0, top, saved);
  }

  /** Creation e has put thread slot, with this entry and this right, at the end of the queue, set up to
      start; the threads already set up stay so. */
  ghost predicate Added(m: Machine, m': Machine, e: Event, slot: nat, user: bool, entry: Word) {
    && |m.sched.tcbs| > 0 && |m'.sched.tcbs| == |m.sched.tcbs| && |m'.sched.procs| == |m.sched.procs| && m'.regs == m.regs
    && SetUp(m', e) && e.slot == slot && e.tcb.user == user && e.tcb.quantum == 5 && e.start == entry && (user ==> e.userEsp == UserProcesses.USER_ESP)
    && m'.sched.queue == m.sched.queue + [slot] && Undisturbed(m, m')
  }

  method AddServer(pm: ProcessManager, entry: Word, ghost m: Machine, ghost o: Paging.Owners, ghost k: nat, ghost frames: nat, ghost frames': nat,
                   ghost slots: nat, ghost slots': nat)
    returns (ghost m': Machine, ghost e: Event)
    requires Goes(pm, m, o, k, frames, slots) && frames == frames' + 1 && slots' == slots + 1 <= |m.sched.tcbs| && slots' <= |m.sched.procs|
    modifies pm, pm.sched, pm.sched.threads, pm.sched.procs, pm.vmm.ram, pm.vmm.pmm`used, pm.vmm.pmm.bitmap
    ensures Goes(pm, m', o, k, frames', slots') && Added(m, m', e, slots, false, entry)
  {
    ghost var v := pm.vmm.Abs();
    PreparedIs(v, o, k, frames);
    NextSlots(m.sched, slots);
    var p;
    ghost var n;
    p, m', n := AddKernelProcess(pm, entry, m, o.dirs);
    e := Creates(m, n);
    TakesNextSlots(m, m', pm.vmm.Abs().mem, n, slots, slots');
    StackCosts(v, pm.vmm.Abs(), o, k, frames, frames', false, entry, 0, n.top, n.saved);
  }

  /** The frames a user process takes on top of the identity map, and one for the thunk page's table. */
  function UserCost(codeSize: Word, entry: Word): nat {
    1 + 32 + UserSpaces.TablesFor(Paging.Page(entry), UserSpaces.CodePages(codeSize)) + UserSpaces.STACK_PAGES + 1 + 2
  }

  /** With that many frames the address space is complete, and there is one for the kernel stack. */
  lemma SpaceFits(v: Paging.Vm, o: Paging.Owners, k: nat, codePhys: Word, codeSize: Word, entry: Word)
    returns (r: UserSpaces.Space, o': Paging.Owners, frames: seq<nat>)
    requires Prepared(v, o, k, UserCost(codeSize, entry))
    ensures Paging.InRam(v.mem, Paging.Page(v.kernelDir)) && r == UserSpaces.UserSpace(v, codePhys, codeSize, entry)
    ensures UserSpaces.SpaceMade(v, r, o, o', frames, codePhys, codeSize, entry) && AddressSpaces.FreeFrames(r.vm.pmm) >= 2
    ensures AddressSpaces.HasFrame(r.vm.pmm)
  {
    PreparedIs(v, o, k, UserCost(codeSize, entry));
    r := UserSpaces.UserSpace(v, codePhys, codeSize, entry);
    o', frames := UserSpaces.UserSpaceMade(v, o, codePhys, codeSize, entry);
    AddressSpaces.TakeFrameCounts(r.vm, Paging.Zeros());
  }

  /** What the kernel and the new process then see. */
  lemma SpacesShowAll(v: Paging.Vm, o: Paging.Owners, k: nat, r: UserSpaces.Space, o': Paging.Owners, frames: seq<nat>,
                      mid: Paging.Vm, v': Paging.Vm, n: Newcomer, codePhys: Word, codeSize: Word)
    requires Prepared(v, o, k, 0) && UserSpaces.SpaceMade(v, r, o, o', frames, codePhys, codeSize, n.entry)
    requires UserMade(r, mid, v', n)
    ensures UserSpaces.SpacesShow(v'.mem, k, Paging.Page(r.dir), codePhys, codeSize, n.entry, frames)
  {
    assert Paging.Walk(v.mem, k, UserSpaces.THUNK_PAGE).Some?;
    var d := Paging.Page(r.dir);
    UserProcesses.StackIsData(r.vm, mid, {}, true, n.entry, n.userEsp, n.top, n.saved);
    Paging.NextIsFresh(r.vm, o', mid.pmm, Paging.Page(n.top - PAGE_SIZE));
    var o'' := UserSpaces.SpaceFinished(v, r, mid, Paging.Page(n.top - PAGE_SIZE), o, o', frames, codePhys, codeSize, n.entry);
    forall x: nat | x < 0x10_0000
      ensures Paging.Walk(v'.mem, d, x) == UserSpaces.Shown(codePhys, codeSize, n.entry, frames, x)
    {
      UserSpaces.FinalShown(v, k, codePhys, codeSize, n.entry, frames, x);
    }
    assert Paging.DirOk(v', o'', k) by { assert k in o''.dirs; }
    forall x: nat | x < 0x10_0000 ensures Paging.Walk(v'.mem, k, x) == Paging.Walk(v.mem, k, x) {
      assert Paging.SameWalk(v, v', k, x);
    }
  }

  /** Over the kernel's identity map, every user process that is created has its whole address space, however few
      frames there were: where vmm_map_page fails without a word, the process is given up. */
  lemma CreatedShows(v: Paging.Vm, o: Paging.Owners, k: nat, r: UserSpaces.Space, mid: Paging.Vm, v': Paging.Vm, n: Newcomer,
                     codePhys: Word, codeSize: Word)
    returns (frames: seq<nat>)
    requires Prepared(v, o, k, 0) && Paging.InRam(v.mem, Paging.Page(v.kernelDir))
    requires r == UserSpaces.UserSpace(v, codePhys, codeSize, n.entry) && r.ok && UserMade(r, mid, v', n)
    ensures UserSpaces.SpacesShow(v'.mem, k, Paging.Page(r.dir), codePhys, codeSize, n.entry, frames)
  {
    var o';
    o', frames := UserSpaces.UserSpaceMade(v, o, codePhys, codeSize, n.entry);
    SpacesShowAll(v, o, k, r, o', frames, mid, v', n, codePhys, codeSize);
  }

  method AddUser(pm: ProcessManager, codePhys: Word, codeSize: Word, entry: Word, ghost m: Machine, ghost o: Paging.Owners, ghost k: nat,
                 ghost slots: nat)
    returns (ghost m': Machine, ghost e: Event, ghost d: nat, ghost frames: seq<nat>, ghost dirs: set<nat>)
    requires Goes(pm, m, o, k, UserCost(codeSize, entry), slots) && slots < |m.sched.tcbs| && slots < |m.sched.procs|
    modifies pm, pm.sched, pm.sched.threads, pm.sched.procs, pm.vmm.ram, pm.vmm.pmm`used, pm.vmm.pmm.bitmap
    ensures Stands(pm, m', dirs) && Added(m, m', e, slots, true, entry)
    ensures UserSpaces.SpacesShow(pm.vmm.ram[..], k, d, codePhys, codeSize, entry, frames)
  {
    ghost var v := pm.vmm.Abs();
    ghost var r, o';
    r, o', frames := SpaceFits(v, o, k, codePhys, codeSize, entry);
    NextSlots(m.sched, slots);
    var p;
    ghost var n, mid;
    p, m', n, mid := AddUserProcess(pm, codePhys, codeSize, entry, m, o.dirs, r);
    e, d, dirs := Creates(m, n), Paging.Page(r.dir), DirsAfter(m.sched, o.dirs, r);
    TakesNextSlots(m, m', pm.vmm.Abs().mem, n, slots, slots + 1);
    SpacesShowAll(v, o, k, r, o', frames, mid, pm.vmm.Abs(), n, codePhys, codeSize);
  }

  /** The boot code is the idle thread; the server and the user process wait to start at their entries. */
  predicate Running(m: Machine, e1: Event, e2: Event, server: Word, entry: Word) {
    && m.sched.current == Some(0) && m.sched.queue == [1, 2, 0]
    && e1.Create? && StartsAs(m, e1) && e1.slot == 1 && !e1.tcb.user && e1.start == server
    && e2.Create? && StartsAs(m, e2) && e2.slot == 2 && e2.tcb.user && e2.start == entry && e2.userEsp == 0x7FFE_FFFC
    && e1.tcb.quantum == 5 && e2.tcb.quantum == 5 && |m.sched.tcbs| > 0 && m.sched.tcbs[0].state.Running? && m.sched.tcbs[0].quantum == 10
  }

  lemma BothAdded(m0: Machine, m1: Machine, m2: Machine, e1: Event, e2: Event, server: Word, entry: Word)
    requires Added(m0, m1, e1, 1, false, server) && Added(m1, m2, e2, 2, true, entry) && m0.sched.queue == []
    ensures Running(Launched(m2), e1, e2, server, entry)
  {
    StaysSetUp(m1, m2, e1);
  }

  /** The two processes kernel_main creates, and scheduler_init. */
  method StartProcesses(pm: ProcessManager, server: Word, codePhys: Word, codeSize: Word, entry: Word,
                        ghost m0: Machine, ghost o: Paging.Owners, ghost k: nat)
    returns (ghost m: Machine, ghost e1: Event, ghost e2: Event, ghost d: nat, ghost frames: seq<nat>, ghost dirs: set<nat>)
    requires Goes(pm, m0, o, k, 1 + UserCost(codeSize, entry), 1) && |m0.sched.tcbs| >= 3 && |m0.sched.procs| >= 3 && m0.sched.queue == []
    modifies pm, pm.sched, pm.sched.threads, pm.sched.procs, pm.vmm.ram, pm.vmm.pmm`used, pm.vmm.pmm.bitmap
    ensures pm.sched.Valid() && pm.vmm.Valid() && m.sched == pm.sched.Abs() && m.mem == pm.vmm.ram[..] && m.regs == m0.regs
    ensures InOrder(m, 0, pm.vmm.Abs(), dirs, pm.nextPid) && Running(m, e1, e2, server, entry)
    ensures UserSpaces.SpacesShow(m.mem, k, d, codePhys, codeSize, entry, frames)
  {
    ghost var m1, m2;
    m1, e1 := AddServer(pm, server, m0, o, k, 1 + UserCost(codeSize, entry), UserCost(codeSize, entry), 1, 2);
    m2, e2, d, frames, dirs := AddUser(pm, codePhys, codeSize, entry, m1, o, k, 2);
    BothAdded(m0, m1, m2, e1, e2, server, entry);
    StartRunning(pm, m2, dirs);
    m := Launched(m2);
  }

  /** kernel_main from pmm_init to scheduler_init, on memory that may hold anything: with frames enough, and
      with the thread and process tables empty, it ends in a machine from which every run is sound. The boot
      code is the idle thread; the graphics server and the user process are queued and set up to start at
      their entry points; the kernel's directory maps the first 128 MB to itself, and the process's directory
      shows what it is meant to. */
  method KernelMain(ram: array<Word>, sched: Scheduler.Dispatcher, memUpperKb: nat, kernelIdle: Word, server: Word,
                    codePhys: Word, codeSize: Word, entry: Word, ghost r: Regs, ghost boot: Stack)
    returns (pm: ProcessManager, ghost m: Machine, ghost e1: Event, ghost e2: Event, ghost k: nat, ghost d: nat, ghost frames: seq<nat>,
             ghost dirs: set<nat>)
    requires ram.Length >= Paging.RAM_PAGES * Paging.ENTRIES && 4 * ram.Length < TWO_TO_THE_32
    requires 7168 <= memUpperKb && (memUpperKb + 1024) * 1024 < TWO_TO_THE_32
    requires Pmm.ManagedFrames(memUpperKb) >= 33 + 2 + UserCost(codeSize, entry)
    requires sched.Valid() && sched.queue == [] && |sched.threads| == 32 && sched.procs.Length == 16
    requires BootContext(r, boot)
    modifies ram, sched, sched.threads, sched.procs
    ensures pm.sched == sched && pm.vmm.ram == ram && sched.Valid() && pm.vmm.Valid() && m.sched == sched.Abs() && m.mem == ram[..] && m.regs == r
    ensures InOrder(m, 0, pm.vmm.Abs(), dirs, pm.nextPid) && Running(m, e1, e2, server, entry)
    ensures UserSpaces.SpacesShow(m.mem, k, d, codePhys, codeSize, entry, frames)
  {
    var vmm;
    ghost var o;
    vmm, o, k := MemoryUp(ram, memUpperKb);
    ghost var v, spare := vmm.Abs(), 2 + UserCost(codeSize, entry);
    LoadCr3(sched, vmm.kernelDir);
    pm := new ProcessManager(sched, vmm);
    assert vmm.Abs() == v;
    ghost var m0 := BeginInOrder(pm, kernelIdle, r, boot, o, k, spare, spare - 1);
    m, e1, e2, d, frames, dirs := StartProcesses(pm, server, codePhys, codeSize, entry, m0, o, k);
  }
}
