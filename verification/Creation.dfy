/**
 Process creation seen from the machine: what proc_create_kernel and proc_create_user do, page tables
 included, is a sequence of events of Runs, so every theorem about runs holds across it.
 */
module Creation {
  import opened Basics
  import opened Frames
  import opened SchedulerSpec
  import opened Machine
  import opened Runs
  import opened Processes
  import opened FrameUse
  import AddressSpaces
  import Paging
  import Pmm
  import UserProcesses
  import UserSpaces

  // ---- kernel stacks and page tables ----------------------------------------------------------------

  /** A kernel stack that is a frame of data, or lies below all frames. */
  ghost predicate InFrame(v: Paging.Vm, dirs: set<nat>, k: Stack) {
    || k.hi <= Paging.FIRST_PAGE * Paging.ENTRIES
    || (k.hi == k.lo + Paging.ENTRIES && k.lo % Paging.ENTRIES == 0 && Held(v, dirs, k.lo / Paging.ENTRIES))
  }

  ghost predicate AllInFrames(v: Paging.Vm, dirs: set<nat>, stacks: map<nat, Stack>) {
    forall i {:trigger stacks[i]} :: i in stacks ==> InFrame(v, dirs, stacks[i])
  }

  /** Where all data is kept, every kernel stack is. */
  lemma StacksKept(v: Paging.Vm, v': Paging.Vm, dirs: set<nat>, dirs': set<nat>, stacks: map<nat, Stack>)
    requires KeepsData(v, v', dirs, dirs') && AllInFrames(v, dirs, stacks)
    ensures AllInFrames(v', dirs', stacks)
    ensures forall i {:trigger stacks[i]} :: i in stacks ==> Agrees(v.mem, v'.mem, stacks[i])
  {
    forall i | i in stacks ensures InFrame(v', dirs', stacks[i]) && Agrees(v.mem, v'.mem, stacks[i]) {
      var k := stacks[i];
      if k.hi > Paging.FIRST_PAGE * Paging.ENTRIES {
        assert Held(v, dirs, k.lo / Paging.ENTRIES);
        Blocks(0, k.lo / Paging.ENTRIES, k.lo);
      }
    }
  }

  /** Every pid in use is below the next one. */
  predicate PidsBelow(procs: seq<Pcb>, n: nat) {
    forall k :: 0 <= k < |procs| && procs[k].active ==> procs[k].pid < n
  }

  // ---- creation -----------------------------------------------------------------------------------

  /** What a new process and its thread are given. */
  datatype Newcomer = Newcomer(user: bool, pid: nat, tid: nat, pageDir: Word, entry: Word, userEsp: Word, top: Word, saved: Word)

  function ThreadOf(n: Newcomer): Tcb { Tcb(n.tid, n.pid, Ready, n.user, n.top, n.saved, 5) }

  function StackOf(n: Newcomer): Stack
    requires n.top / 4 >= Paging.ENTRIES
  {
    Stack(n.top / 4 - Paging.ENTRIES, n.top / 4)
  }

  /** The event of creating it: where its parts go. */
  function Creates(m: Machine, n: Newcomer): Event
    requires n.top / 4 >= Paging.ENTRIES
  {
    Create(ThreadSlot(m.sched.tcbs), ThreadOf(n), FreeProc(m.sched.procs, 0), Pcb(true, n.pid, n.pageDir), StackOf(n), n.entry, n.userEsp)
  }

  /** A frame just taken overlaps no stack there is. */
  lemma FreshStackApart(v: Paging.Vm, v': Paging.Vm, dirs: set<nat>, n: Newcomer, k: Stack)
    requires Grounded(v, dirs) && AddressSpaces.HasFrame(v.pmm)
    requires StackMade(v, v', n.user, n.entry, n.userEsp, n.top, n.saved) && InFrame(v, dirs, k)
    ensures n.top / 4 >= Paging.ENTRIES
    ensures Apart(StackOf(n), k) && InFrame(v', dirs, StackOf(n)) && InFrame(v', dirs, k)
  {
    var f := Paging.Page(n.top - PAGE_SIZE);
    Paging.NextIsFresh(v, Paging.Owners({}, map[]), v'.pmm, f);
    UserProcesses.StackIsData(v, v', dirs, n.user, n.entry, n.userEsp, n.top, n.saved);
    assert n.top - PAGE_SIZE == f * PAGE_SIZE;
    assert StackOf(n).lo == f * Paging.ENTRIES;
    if k.hi > Paging.FIRST_PAGE * Paging.ENTRIES {
      Blocks(f, k.lo / Paging.ENTRIES, k.lo);
      assert Held(v, dirs, k.lo / Paging.ENTRIES);
    }
  }

  lemma Blocks(n: nat, m: nat, lo: nat)
    requires m == lo / Paging.ENTRIES && lo % Paging.ENTRIES == 0
    ensures lo == m * Paging.ENTRIES && (n != m ==> n * Paging.ENTRIES + Paging.ENTRIES <= lo || lo + Paging.ENTRIES <= n * Paging.ENTRIES)
  {
  }

  /** The machine after a creation event, with the memory it leaves. */
  function Populated(m: Machine, e: Event, mem: Memory): Machine
    requires e.Create? && HasSlots(m.sched)
  {
    Machine(m.regs, mem, Spawned(m.sched, e.tcb, e.pcb), m.stacks[e.slot := e.stack])
  }

  /** A sound machine over address spaces whose directories are dirs, with its kernel stacks in frames of
      data and its pids below the next one. */
  ghost predicate InOrder(m: Machine, idle: nat, v: Paging.Vm, dirs: set<nat>, pid: nat) {
    && Sound(m, idle) && m.mem == v.mem && Grounded(v, dirs)
    && (v.kernelDir != 0 ==> Paging.Page(v.kernelDir) in dirs)
    && AllInFrames(v, dirs, m.stacks) && PidsBelow(m.sched.procs, pid)
  }

  /** A kernel stack has been made for a new thread, and there are slots. */
  ghost predicate Creatable(m: Machine, v: Paging.Vm, v': Paging.Vm, n: Newcomer) {
    && AddressSpaces.Roomy(v) && AddressSpaces.HasFrame(v.pmm) && StackMade(v, v', n.user, n.entry, n.userEsp, n.top, n.saved)
    && HasSlots(m.sched) && n.tid != 0 && n.pageDir != 0
  }

  lemma FreshStackApartFromAll(v: Paging.Vm, v': Paging.Vm, dirs: set<nat>, n: Newcomer, stacks: map<nat, Stack>)
    requires Grounded(v, dirs) && AddressSpaces.HasFrame(v.pmm) && AllInFrames(v, dirs, stacks)
    requires StackMade(v, v', n.user, n.entry, n.userEsp, n.top, n.saved) && n.top / 4 >= Paging.ENTRIES
    ensures AllInFrames(v', dirs, stacks)
    ensures forall j {:trigger Apart(StackOf(n), stacks[j])} :: j in stacks ==> Apart(StackOf(n), stacks[j])
  {
    forall j | j in stacks ensures Apart(StackOf(n), stacks[j]) && InFrame(v', dirs, stacks[j]) {
      FreshStackApart(v, v', dirs, n, stacks[j]);
    }
  }

  lemma CreationEnabled(m: Machine, idle: nat, n: Newcomer, mem: Memory)
    requires Sound(m, idle) && HasSlots(m.sched) && PidsBelow(m.sched.procs, n.pid) && n.top / 4 >= Paging.ENTRIES
    requires n.tid != 0 && n.pageDir != 0 && n.saved != 0
    ensures var e := Creates(m, n);
      && WellFormed(m.sched) && Interruptible(m) && Enabled(m.sched, idle, Projection(m, e))
      && Populated(m, e, mem).sched == Apply(m.sched, idle, Projection(m, e))
    ensures PidsBelow(Populated(m, Creates(m, n), mem).sched.procs, n.pid + 1)
  {
    EntryInStack(m);
    assert FindProc(m.sched.procs, n.pid).None?;
  }

  lemma CreationComputes(m: Machine, v: Paging.Vm, v': Paging.Vm, dirs: set<nat>, n: Newcomer)
    requires Placed(m) && m.sched.current.value < |m.sched.tcbs| && m.mem == v.mem && Creatable(m, v, v', n)
    requires Grounded(v, dirs) && AllInFrames(v, dirs, m.stacks)
    ensures n.top / 4 >= Paging.ENTRIES && n.saved != 0
    ensures var e := Creates(m, n); Computes(m, e, Populated(m, e, v'.mem)) && AllInFrames(v', dirs, m.stacks[e.slot := e.stack])
  {
    FreshStackApart(v, v', dirs, n, Stack(0, 0));
    FreshStackApartFromAll(v, v', dirs, n, m.stacks);
  }

  lemma CreationNext(m: Machine, idle: nat, v: Paging.Vm, v': Paging.Vm, dirs: set<nat>, n: Newcomer)
    requires InOrder(m, idle, v, dirs, n.pid) && Creatable(m, v, v', n)
    ensures n.top / 4 >= Paging.ENTRIES
    ensures var e := Creates(m, n); var m' := Populated(m, e, v'.mem);
      && Next(m, idle, e, m') && Grounded(v', dirs) && AllInFrames(v', dirs, m'.stacks) && PidsBelow(m'.sched.procs, n.pid + 1)
  {
    CreationComputes(m, v, v', dirs, n);
    CreationEnabled(m, idle, n, v'.mem);
    UserProcesses.StackIsData(v, v', dirs, n.user, n.entry, n.userEsp, n.top, n.saved);
  }

  /** The creation of a process is a creation event: the new thread has a stack no one else has, starts
      from its first frame, and everything else stays. */
  lemma CreationIsEvent(m: Machine, idle: nat, v: Paging.Vm, v': Paging.Vm, dirs: set<nat>, n: Newcomer)
    requires InOrder(m, idle, v, dirs, n.pid) && Creatable(m, v, v', n)
    ensures n.top / 4 >= Paging.ENTRIES
    ensures var e := Creates(m, n); var m' := Populated(m, e, v'.mem);
      Next(m, idle, e, m') && InOrder(m', idle, v', dirs, n.pid + 1) && StartsAs(m', e)
  {
    CreationNext(m, idle, v, v', dirs, n);
    var e := Creates(m, n);
    EventKeeps(m, idle, e, Populated(m, e, v'.mem));
    CreateStarts(m, idle, e, Populated(m, e, v'.mem));
  }

  // ---- page tables as work --------------------------------------------------------------------------

  /** Registers the current thread may have. */
  predicate RunsWith(m: Machine, r: Regs)
    requires Placed(m)
  {
    var c := m.sched.current.value;
    ThreadAt(m, c) && RunsWell(r, m.sched.tcbs[c], m.stacks[c])
  }

  /** Whatever keeps all data is work of the thread that asks for it: no kernel stack changes, so no other
      thread notices. */
  lemma WorkInOrder(m: Machine, idle: nat, v: Paging.Vm, v': Paging.Vm, dirs: set<nat>, dirs': set<nat>, pid: nat, r: Regs)
    requires InOrder(m, idle, v, dirs, pid) && RunsWith(m, r)
    requires KeepsData(v, v', dirs, dirs') && Grounded(v', dirs') && v'.kernelDir == v.kernelDir && dirs <= dirs'
    ensures var m' := m.(regs := r, mem := v'.mem);
      Next(m, idle, Work(r, v'.mem), m') && InOrder(m', idle, v', dirs', pid)
  {
    EntryInStack(m);
    StacksKept(v, v', dirs, dirs', m.stacks);
    EventKeeps(m, idle, Work(r, v'.mem), m.(regs := r, mem := v'.mem));
  }

  /** A new thread stays ready to start while others work. */
  lemma StartsAfterWork(m: Machine, idle: nat, e: Event, r: Regs, mem: Paging.Memory)
    requires Sound(m, idle) && e.Create? && StartsAs(m, e) && m.sched.current != Some(e.slot)
    requires Next(m, idle, Work(r, mem), m.(regs := r, mem := mem))
    ensures StartsAs(m.(regs := r, mem := mem), e)
  {
    EventKeeps(m, idle, Work(r, mem), m.(regs := r, mem := mem));
    assert SameView(m, m.(regs := r, mem := mem), e.slot);
  }

  /** What proc_create_user leaves when it succeeds: its address space r, then the kernel stack in mid, then
      the thunk page. */
  ghost predicate UserMade(r: UserSpaces.Space, mid: Paging.Vm, v': Paging.Vm, n: Newcomer) {
    && AddressSpaces.Roomy(r.vm) && AddressSpaces.HasFrame(r.vm.pmm) && r.dir != 0 && n.user && n.tid != 0 && n.pageDir == r.dir
    && StackMade(r.vm, mid, true, n.entry, n.userEsp, n.top, n.saved)
    && AddressSpaces.Roomy(mid) && Paging.InRam(mid.mem, Paging.Page(r.dir)) && v' == UserSpaces.WithThunk(mid, Paging.Page(r.dir))
  }

  /** The three instants of a user process's creation after m. */
  function Instants(m: Machine, r: UserSpaces.Space, mid: Paging.Vm, v': Paging.Vm, n: Newcomer, r1: Regs, r2: Regs): seq<Machine>
    requires n.top / 4 >= Paging.ENTRIES && HasSlots(m.sched)
  {
    var m1 := m.(regs := r1, mem := r.vm.mem);
    var m2 := Populated(m1, Creates(m1, n), mid.mem);
    [m, m1, m2, m2.(regs := r2, mem := v'.mem)]
  }

  /** The whole of proc_create_user, for a running thread that asks for it: work, a creation, and work. All
      the page tables it writes change nothing any thread sees, and the new thread is ready to start. */
  lemma UserCreationRuns(m: Machine, idle: nat, v: Paging.Vm, dirs: set<nat>, codePhys: Word, codeSize: Word, r: UserSpaces.Space,
                         mid: Paging.Vm, v': Paging.Vm, n: Newcomer, r1: Regs, r2: Regs)
    requires InOrder(m, idle, v, dirs, n.pid) && HasSlots(m.sched) && RunsWith(m, r1) && RunsWith(m, r2)
    requires Paging.InRam(v.mem, Paging.Page(v.kernelDir)) && r == UserSpaces.UserSpace(v, codePhys, codeSize, n.entry)
    requires UserMade(r, mid, v', n)
    ensures n.top / 4 >= Paging.ENTRIES
    ensures var ms := Instants(m, r, mid, v', n, r1, r2); var e := Creates(m, n);
      && Run(ms, idle, [Work(r1, r.vm.mem), e, Work(r2, v'.mem)])
      && InOrder(ms[3], idle, v', dirs + {Paging.Page(r.dir)}, n.pid + 1) && StartsAs(ms[3], e)
  {
    var dirs' := dirs + {Paging.Page(r.dir)};
    SpaceInOrder(m, idle, v, dirs, codePhys, codeSize, n.entry, n.pid, r1);
    var m1 := m.(regs := r1, mem := r.vm.mem);
    CreationIsEvent(m1, idle, r.vm, mid, dirs', n);
    var e := Creates(m1, n);
    var m2 := Populated(m1, e, mid.mem);
    ThunkInOrder(m2, idle, mid, dirs', Paging.Page(r.dir), n.pid + 1, r2, e);
    ThreeSteps(m, m1, m2, m2.(regs := r2, mem := v'.mem), idle, Work(r1, r.vm.mem), e, Work(r2, v'.mem));
  }

  lemma ThreeSteps(m: Machine, m1: Machine, m2: Machine, m3: Machine, idle: nat, a: Event, b: Event, c: Event)
    requires Sound(m, idle) && Next(m, idle, a, m1) && Next(m1, idle, b, m2) && Next(m2, idle, c, m3)
    ensures Run([m, m1, m2, m3], idle, [a, b, c])
  {
  }

  /** The mappings made before the thread exists. */
  lemma SpaceInOrder(m: Machine, idle: nat, v: Paging.Vm, dirs: set<nat>, codePhys: Word, codeSize: Word, entry: Word, pid: nat, r1: Regs)
    requires InOrder(m, idle, v, dirs, pid) && RunsWith(m, r1) && Paging.InRam(v.mem, Paging.Page(v.kernelDir))
    ensures var r := UserSpaces.UserSpace(v, codePhys, codeSize, entry); var m1 := m.(regs := r1, mem := r.vm.mem);
      Next(m, idle, Work(r1, r.vm.mem), m1) && InOrder(m1, idle, r.vm, WithDirectory(dirs, r.dir), pid)
  {
    UserSpaces.SpaceKeeps(v, dirs, codePhys, codeSize, entry);
    var r := UserSpaces.UserSpace(v, codePhys, codeSize, entry);
    WorkInOrder(m, idle, v, r.vm, dirs, WithDirectory(dirs, r.dir), pid, r1);
  }

  /** The mapping made after it exists. */
  lemma ThunkInOrder(m: Machine, idle: nat, v: Paging.Vm, dirs: set<nat>, d: nat, pid: nat, r2: Regs, e: Event)
    requires InOrder(m, idle, v, dirs, pid) && RunsWith(m, r2) && d in dirs && Paging.InRam(v.mem, d)
    requires e.Create? && StartsAs(m, e) && m.sched.current != Some(e.slot)
    ensures var v' := UserSpaces.WithThunk(v, d); var m' := m.(regs := r2, mem := v'.mem);
      Next(m, idle, Work(r2, v'.mem), m') && InOrder(m', idle, v', dirs, pid) && StartsAs(m', e)
  {
    MapKeeps(v, dirs, d, UserSpaces.THUNK, UserSpaces.THUNK, UserSpaces.USER_READABLE);
    WorkInOrder(m, idle, v, UserSpaces.WithThunk(v, d), dirs, dirs, pid, r2);
    StartsAfterWork(m, idle, e, r2, UserSpaces.WithThunk(v, d).mem);
  }

  /** A creation that fails, after whatever work: the process slot it had taken is given up, and that is all
      any thread could tell. */
  lemma FailedCreationRuns(m: Machine, idle: nat, v: Paging.Vm, dirs: set<nat>, codePhys: Word, codeSize: Word, entry: Word, pid: nat, r1: Regs)
    requires InOrder(m, idle, v, dirs, pid) && FreeProc(m.sched.procs, 0) < |m.sched.procs| && RunsWith(m, r1)
    requires Paging.InRam(v.mem, Paging.Page(v.kernelDir))
    ensures var r := UserSpaces.UserSpace(v, codePhys, codeSize, entry); var i := FreeProc(m.sched.procs, 0);
      var m1 := m.(regs := r1, mem := r.vm.mem); var m2 := m1.(sched := m1.sched.(procs := m1.sched.procs[i := Pcb(false, pid, r.dir)]));
      && Run([m, m1, m2], idle, [Work(r1, r.vm.mem), Refuse(i, Pcb(false, pid, r.dir))])
      && InOrder(m2, idle, r.vm, WithDirectory(dirs, r.dir), pid + 1)
  {
    var r := UserSpaces.UserSpace(v, codePhys, codeSize, entry);
    SpaceInOrder(m, idle, v, dirs, codePhys, codeSize, entry, pid, r1);
    RefusalInOrder(m.(regs := r1, mem := r.vm.mem), idle, r.vm, WithDirectory(dirs, r.dir), pid, r.dir);
  }

  /** A process slot given up. */
  lemma RefusalInOrder(m: Machine, idle: nat, v: Paging.Vm, dirs: set<nat>, pid: nat, dir: Word)
    requires InOrder(m, idle, v, dirs, pid) && FreeProc(m.sched.procs, 0) < |m.sched.procs|
    ensures var i := FreeProc(m.sched.procs, 0);
      var m' := m.(sched := m.sched.(procs := m.sched.procs[i := Pcb(false, pid, dir)]));
      Next(m, idle, Refuse(i, Pcb(false, pid, dir)), m') && InOrder(m', idle, v, dirs, pid + 1)
  {
    EntryInStack(m);
    var i := FreeProc(m.sched.procs, 0);
    EventKeeps(m, idle, Refuse(i, Pcb(false, pid, dir)), m.(sched := m.sched.(procs := m.sched.procs[i := Pcb(false, pid, dir)])));
  }

  // ---- everything else that happens -------------------------------------------------------------------

  /** No word of a directory has changed. */
  predicate SameDirs(mem: Paging.Memory, mem': Paging.Memory, dirs: set<nat>) {
    && |mem'| == |mem|
    && forall d, i: nat {:trigger Paging.Peek(mem', d, i)} :: d in dirs && i < Paging.ENTRIES && Paging.InRam(mem, d) ==>
         Paging.Peek(mem', d, i) == Paging.Peek(mem, d, i)
  }

  /** What holds data depends on the directories alone. */
  lemma SameDirsHold(v: Paging.Vm, mem': Paging.Memory, dirs: set<nat>)
    requires Grounded(v, dirs) && SameDirs(v.mem, mem', dirs)
    ensures var v' := v.(mem := mem'); Grounded(v', dirs) && forall f: nat {:trigger Held(v, dirs, f)} :: Held(v, dirs, f) ==> Held(v', dirs, f)
  {
    var v' := v.(mem := mem');
    forall d, i: nat | d in dirs && i < Paging.ENTRIES ensures EntryGrounded(v', dirs, d, i) {
      assert EntryGrounded(v, dirs, d, i);
    }
    forall f: nat | Held(v, dirs, f) ensures Held(v', dirs, f) {
      forall d, i: nat | d in dirs && i < Paging.ENTRIES ensures PointsElsewhere(v', d, i, f) {
        assert PointsElsewhere(v, d, i, f) && EntryGrounded(v, dirs, d, i);
      }
    }
  }

  /** No kernel stack overlaps a directory. */
  lemma StackOffDirs(v: Paging.Vm, dirs: set<nat>, k: Stack, d: nat)
    requires Grounded(v, dirs) && InFrame(v, dirs, k) && d in dirs
    ensures k.hi <= d * Paging.ENTRIES || d * Paging.ENTRIES + Paging.ENTRIES <= k.lo
  {
    if k.hi > Paging.FIRST_PAGE * Paging.ENTRIES {
      Blocks(d, k.lo / Paging.ENTRIES, k.lo);
    }
  }

  /** An interrupt writes only the stack of the thread it interrupts. */
  lemma TrappedSameDirs(m: Machine, below: Scratch, v: Paging.Vm, dirs: set<nat>)
    requires Interruptible(m) && m.mem == v.mem && Grounded(v, dirs) && AllInFrames(v, dirs, m.stacks)
    ensures SameDirs(m.mem, Trapped(m, below), dirs)
  {
    var c := m.sched.current.value;
    assert ThreadAt(m, c);
    EntryInStack(m);
    EntryBounds(m.mem, m.regs, m.sched.tcbs[c], m.stacks[c]);
    PushedMemoryPushes(m.mem, m.regs, EntryTop(m.regs, m.sched.esp0), below);
    forall d, i: nat | d in dirs && i < Paging.ENTRIES && Paging.InRam(m.mem, d)
      ensures Paging.Peek(Trapped(m, below), d, i) == Paging.Peek(m.mem, d, i)
    {
      StackOffDirs(v, dirs, m.stacks[c], d);
    }
  }

  lemma InterruptSameDirs(m: Machine, idle: nat, e: Event, m': Machine, v: Paging.Vm, dirs: set<nat>)
    requires Sound(m, idle) && Next(m, idle, e, m') && (e.Interrupt? || e.Trap?)
    requires m.mem == v.mem && Grounded(v, dirs) && AllInFrames(v, dirs, m.stacks)
    ensures SameDirs(m.mem, m'.mem, dirs)
  {
    TrappedSameDirs(m, e.below, v, dirs);
    if e.Trap? {
      TrapSuspends(m, idle);
      TrappedSameDirs(m.(sched := ClearQuantum(m.sched)), e.below, v, dirs);
    }
  }

  /** Between creations: every interrupt, every yield, exit and removal, and all work that writes no
      directory, leaves the machine in order for the next one. */
  lemma EventInOrder(m: Machine, idle: nat, e: Event, m': Machine, v: Paging.Vm, dirs: set<nat>, pid: nat)
    requires InOrder(m, idle, v, dirs, pid) && Next(m, idle, e, m') && !e.Create? && !e.Refuse?
    requires e.Work? ==> SameDirs(m.mem, m'.mem, dirs)
    ensures InOrder(m', idle, v.(mem := m'.mem), dirs, pid)
  {
    EventKeeps(m, idle, e, m');
    if e.Interrupt? || e.Trap? {
      InterruptSameDirs(m, idle, e, m', v, dirs);
    }
    SameDirsHold(v, m'.mem, dirs);
    forall i | i in m'.stacks ensures InFrame(v.(mem := m'.mem), dirs, m'.stacks[i]) {
      assert InFrame(v, dirs, m.stacks[i]);
    }
    SameProcs(m, idle, e, m');
  }

  lemma SameProcs(m: Machine, idle: nat, e: Event, m': Machine)
    requires Next(m, idle, e, m') && !e.Create? && !e.Refuse?
    ensures m'.sched.procs == m.sched.procs && m'.stacks == m.stacks
  {
  }

  // ---- stacks and directories ---------------------------------------------------------------------------

  /** Pushes and pops are modelled on physical memory. In the directory of a user process a word of a kernel
      stack is at its own address, readable and writable, exactly when no page of the process's code lies over
      its page, or that very page; so the load of CR3 in a switch leaves the stack in place. */
  lemma StackSelfMappedIff(v: Paging.Vm, dirs: set<nat>, k: Stack, w: nat, codePhys: Word, codeSize: Word, entry: Word, frames: seq<nat>)
    requires Grounded(v, dirs) && InFrame(v, dirs, k) && k.lo <= w < k.hi && |frames| == UserSpaces.STACK_PAGES
    requires Paging.InRam(v.mem, Paging.Page(v.kernelDir)) && w / Paging.ENTRIES != UserSpaces.THUNK_PAGE
    requires w / Paging.ENTRIES < 0x10_0000 ==>
      Paging.Walk(v.mem, Paging.Page(v.kernelDir), w / Paging.ENTRIES) == Some(Paging.Mapping(w / Paging.ENTRIES, true, false))
    ensures w / Paging.ENTRIES < Paging.RAM_PAGES
    ensures var x := w / Paging.ENTRIES; var j := UserSpaces.CodeIndex(entry, x);
      UserSpaces.Final(v, codePhys, codeSize, entry, frames, x) == Some(Paging.Mapping(x, true, true)) <==>
      (j < UserSpaces.CodePages(codeSize) ==> (Paging.Page(codePhys) + j) % UserSpaces.PAGES == x)
  {
    assert k.hi > Paging.FIRST_PAGE * Paging.ENTRIES ==> Held(v, dirs, k.lo / Paging.ENTRIES);
    UserSpaces.SelfMappedIff(v, codePhys, codeSize, entry, frames, w / Paging.ENTRIES);
  }

  // ---- slots --------------------------------------------------------------------------------------

  /** Thread slots never used, among the first n. */
  function Unused(tcbs: seq<Tcb>, n: nat): nat
    requires n <= |tcbs|
  {
    if n == 0 then 0 else Unused(tcbs, n - 1) + (if tcbs[n - 1].tid == 0 then 1 else 0)
  }

  function Spawns(steps: seq<Step>, k: nat): nat
    requires k <= |steps|
  {
    if k == 0 then 0 else Spawns(steps, k - 1) + (if steps[k - 1].Spawn? then 1 else 0)
  }

  lemma {:induction false} UnusedSame(a: seq<Tcb>, b: seq<Tcb>, n: nat)
    requires n <= |a| && n <= |b| && forall i :: 0 <= i < n ==> (a[i].tid == 0 <==> b[i].tid == 0)
    ensures Unused(a, n) == Unused(b, n)
    decreases n
  {
    if n > 0 {
      UnusedSame(a, b, n - 1);
    }
  }

  lemma {:induction false} UnusedLess(a: seq<Tcb>, i: nat, t: Tcb, n: nat)
    requires i < |a| && n <= |a| && a[i].tid == 0 && t.tid != 0
    ensures Unused(a[i := t], n) == Unused(a, n) - (if i < n then 1 else 0)
    decreases n
  {
    if n > 0 {
      UnusedLess(a, i, t, n - 1);
    }
  }

  lemma StepSpends(s: Sched, idle: nat, step: Step)
    requires Coherent(s, idle) && Enabled(s, idle, step)
    ensures var s' := Apply(s, idle, step);
      Unused(s'.tcbs, |s.tcbs|) + (if step.Spawn? then 1 else 0) == Unused(s.tcbs, |s.tcbs|)
  {
    var s' := Apply(s, idle, step);
    if step.Spawn? {
      UnusedLess(s.tcbs, step.slot, step.tcb, |s.tcbs|);
    } else {
      StepKeepsTids(s, idle, step);
      UnusedSame(s'.tcbs, s.tcbs, |s.tcbs|);
    }
  }

  lemma FollowsSpends(s: Sched, idle: nat, step: Step, s': Sched)
    requires Coherent(s, idle) && Follows(s, idle, step, s')
    ensures |s'.tcbs| == |s.tcbs|
    ensures Unused(s'.tcbs, |s'.tcbs|) + (if step.Spawn? then 1 else 0) == Unused(s.tcbs, |s.tcbs|)
  {
    StepSpends(s, idle, step);
  }

  /** The slot of a thread that has died is never used again: every creation spends one for good, so a
      run creates no more threads than there were unused slots. */
  lemma {:induction false} SlotsSpent(ss: seq<Sched>, idle: nat, steps: seq<Step>, k: nat)
    requires Trace(ss, idle, steps) && k < |ss|
    ensures |ss[k].tcbs| == |ss[0].tcbs|
    ensures Unused(ss[k].tcbs, |ss[k].tcbs|) + Spawns(steps, k) == Unused(ss[0].tcbs, |ss[0].tcbs|)
    decreases k
  {
    if k > 0 {
      var j := k - 1;
      SlotsSpent(ss, idle, steps, j);
      TraceCoherent(ss, idle, steps, j);
      assert Follows(ss[j], idle, steps[j], ss[j + 1]);
      FollowsSpends(ss[j], idle, steps[j], ss[k]);
    }
  }

  lemma StepKeepsTids(s: Sched, idle: nat, step: Step)
    requires Coherent(s, idle) && Enabled(s, idle, step) && !step.Spawn?
    ensures |Apply(s, idle, step).tcbs| == |s.tcbs|
    ensures forall i :: 0 <= i < |s.tcbs| ==> Apply(s, idle, step).tcbs[i].tid == s.tcbs[i].tid
  {
  }
}
