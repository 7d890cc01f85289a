/** The mapping loops of proc_create_user in place, and the creation of a user process. */
module UserProcesses {
  import opened Basics
  import opened Paging
  import opened AddressSpaces
  import opened FrameUse
  import opened UserSpaces
  import opened Processes
  import opened SchedulerSpec
  import Frames
  import Pmm
  import Scheduler
  import Vmm

  /** A directory a process can be given pages in. */
  ghost predicate Usable(vmm: Vmm.Manager, dir: Word, dirs: set<nat>)
    reads vmm, vmm.ram, vmm.pmm, vmm.pmm.bitmap
  {
    vmm.Valid() && Grounded(vmm.Abs(), dirs) && Page(dir) in dirs && vmm.Points(dir, Page(dir))
  }

  /** One mapping of proc_create_user. */
  method MapInto(vmm: Vmm.Manager, dir: Word, virt: Word, phys: Word, flags: Word, ghost dirs: set<nat>)
    requires Usable(vmm, dir, dirs) && IsFlags(flags)
    modifies vmm.ram, vmm.pmm`used, vmm.pmm.bitmap
    ensures Usable(vmm, dir, dirs) && Roomy(old(vmm.Abs())) && InRam(old(vmm.Abs()).mem, Page(dir))
    ensures vmm.Abs() == MapPage(old(vmm.Abs()), Page(dir), virt, phys, flags)
  {
    ghost var v := vmm.Abs();
    MapKeeps(v, dirs, Page(dir), virt, phys, flags);
    Vmm.GroundedInRam(v, dirs, Page(dir), Page(virt) / ENTRIES);
    vmm.MapPage(dir, virt, phys, flags);
  }

  /** The code loop of proc_create_user. */
  method MapCodePages(vmm: Vmm.Manager, dir: Word, virt: Word, phys: Word, pages: nat, ghost dirs: set<nat>)
    requires Usable(vmm, dir, dirs)
    modifies vmm.ram, vmm.pmm`used, vmm.pmm.bitmap
    ensures Usable(vmm, dir, dirs) && Roomy(old(vmm.Abs())) && InRam(old(vmm.Abs()).mem, Page(dir))
    ensures vmm.Abs() == MapCode(old(vmm.Abs()), Page(dir), virt, phys, pages)
  {
    ghost var v, n: nat := vmm.Abs(), 0;
    var p: nat := 0;
    while p < pages
      invariant n == p <= pages && Usable(vmm, dir, dirs) && vmm.Abs() == MapCode(v, Page(dir), virt, phys, n)
    {
      ghost var n' := CodeUnrolled(v, vmm.Abs(), Page(dir), virt, phys, n);
      MapInto(vmm, dir, NthPage(virt, p), NthPage(phys, p), USER_WRITABLE, dirs);
      n := n';
      p := p + 1;
    }
  }

  /** A frame for a page of the stack, taken as it is. */
  method TakeOne(vmm: Vmm.Manager, dir: Word, ghost dirs: set<nat>) returns (frame: Word)
    requires Usable(vmm, dir, dirs)
    modifies vmm.pmm`used, vmm.pmm.bitmap
    ensures Usable(vmm, dir, dirs) && Roomy(old(vmm.Abs())) && (vmm.Abs(), frame) == Take(old(vmm.Abs()))
  {
    ghost var v := vmm.Abs();
    frame := vmm.pmm.AllocFrame();
    TakeKeeps(v, dirs);
  }

  /** The stack loop of proc_create_user. */
  method MapStackPages(vmm: Vmm.Manager, dir: Word, ghost dirs: set<nat>) returns (ok: bool)
    requires Usable(vmm, dir, dirs)
    modifies vmm.ram, vmm.pmm`used, vmm.pmm.bitmap
    ensures Usable(vmm, dir, dirs) && Roomy(old(vmm.Abs())) && InRam(old(vmm.Abs()).mem, Page(dir))
    ensures (vmm.Abs(), ok) == MapStack(old(vmm.Abs()), Page(dir), 0)
  {
    ghost var target, n: nat := MapStack(vmm.Abs(), Page(dir), 0), 0;
    var p: nat := 0;
    while p < STACK_PAGES
      invariant n == p <= STACK_PAGES && Usable(vmm, dir, dirs) && StackGoes(vmm.Abs(), dir, n, target)
    {
      ok, n := MapStackNext(vmm, dir, p, n, target, dirs);
      if !ok { return; }
      p := p + 1;
    }
    ok := true;
  }

  /** The stack loop, at round n, is on its way to target. */
  predicate StackGoes(v: Vm, dir: Word, n: nat, target: (Vm, bool)) {
    Roomy(v) && InRam(v.mem, Page(dir)) && n <= STACK_PAGES && MapStack(v, Page(dir), n) == target
  }

  /** A round of the stack loop. */
  method MapStackNext(vmm: Vmm.Manager, dir: Word, p: nat, ghost n: nat, ghost target: (Vm, bool), ghost dirs: set<nat>)
    returns (ok: bool, ghost n': nat)
    requires Usable(vmm, dir, dirs) && n == p < STACK_PAGES && StackGoes(vmm.Abs(), dir, n, target)
    modifies vmm.ram, vmm.pmm`used, vmm.pmm.bitmap
    ensures Usable(vmm, dir, dirs)
    ensures if ok then n' == n + 1 && StackGoes(vmm.Abs(), dir, n', target) else (vmm.Abs(), false) == target
  {
    n' := StackUnrolled(vmm.Abs(), Page(dir), n);
    var frame := TakeOne(vmm, dir, dirs);
    if frame == 0 { return false, n'; }
    MapInto(vmm, dir, StackAddress(p), frame, USER_WRITABLE, dirs);
    ok := true;
  }

  /** The address spaces there are: directories, the kernel's among them, whose entries point at allocated
      frames. */
  ghost predicate Known(vmm: Vmm.Manager, dirs: set<nat>)
    reads vmm, vmm.ram, vmm.pmm, vmm.pmm.bitmap
  {
    && vmm.Valid() && Grounded(vmm.Abs(), dirs)
    && (vmm.kernelDir != 0 ==> Page(vmm.kernelDir) in dirs && vmm.Points(vmm.kernelDir, Page(vmm.kernelDir)))
  }

  /** The directory of a new process. */
  method NewSpace(vmm: Vmm.Manager, ghost dirs: set<nat>) returns (dir: Word)
    requires Known(vmm, dirs)
    modifies vmm.ram, vmm.pmm`used, vmm.pmm.bitmap
    ensures Known(vmm, WithDirectory(dirs, dir)) && (dir != 0 ==> Usable(vmm, dir, WithDirectory(dirs, dir)))
    ensures Roomy(old(vmm.Abs())) && InRam(old(vmm.Abs()).mem, Page(old(vmm.kernelDir)))
    ensures (vmm.Abs(), dir) == AddressSpaces.CreateDirectory(old(vmm.Abs()))
  {
    ghost var v := vmm.Abs();
    CreateKeeps(v, dirs);
    dir := vmm.CreateDirectory(dirs);
  }

  /** The mappings of proc_create_user before the thread exists. */
  method MapSpace(vmm: Vmm.Manager, codePhys: Word, codeSize: Word, entry: Word, ghost dirs: set<nat>)
    returns (dir: Word, ok: bool)
    requires Known(vmm, dirs)
    modifies vmm.ram, vmm.pmm`used, vmm.pmm.bitmap
    ensures Known(vmm, WithDirectory(dirs, dir)) && (ok ==> dir != 0)
    ensures dir != 0 ==> Usable(vmm, dir, WithDirectory(dirs, dir))
    ensures Roomy(old(vmm.Abs())) && InRam(old(vmm.Abs()).mem, Page(old(vmm.kernelDir)))
    ensures Space(vmm.Abs(), dir, ok) == UserSpace(old(vmm.Abs()), codePhys, codeSize, entry)
  {
    ok := false;
    dir := NewSpace(vmm, dirs);
    if dir == 0 { return; }
    MapCodePages(vmm, dir, AlignDown(entry), AlignDown(codePhys), CodePages(codeSize), WithDirectory(dirs, dir));
    ok := MapStackPages(vmm, dir, WithDirectory(dirs, dir));
  }

  /** The kernel stack of a thread is data. */
  lemma StackIsData(v: Vm, v': Vm, dirs: set<nat>, user: bool, entry: Word, userEsp: Word, top: Word, saved: Word)
    requires Grounded(v, dirs) && HasFrame(v.pmm) && StackMade(v, v', user, entry, userEsp, top, saved)
    ensures Grounded(v', dirs) && KeepsData(v, v', dirs, dirs) && Held(v', dirs, Page(top - PAGE_SIZE))
    ensures v' == Filled(v, v'.pmm, Page(top - PAGE_SIZE), Content(v'.mem, Page(top - PAGE_SIZE)))
  {
    var n := Page(top - PAGE_SIZE);
    NextIsFresh(v, Owners({}, map[]), v'.pmm, n);
    FilledWith(v, v', n);
    FrameTaken(v, dirs, v'.pmm, n, Content(v'.mem, n));
  }

  const USER_ESP: Word := 0x7FFE_FFFC   // USER_STACK_TOP - 4

  /** The thunk page. */
  method MapThunk(pm: ProcessManager, dir: Word, ghost dirs: set<nat>)
    requires Usable(pm.vmm, dir, dirs) && pm.sched.Valid() && pm.Disjoint()
    modifies pm.vmm.ram, pm.vmm.pmm`used, pm.vmm.pmm.bitmap
    ensures pm.sched.Valid() && pm.sched.Abs() == old(pm.sched.Abs())
    ensures Usable(pm.vmm, dir, dirs) && Roomy(old(pm.vmm.Abs())) && InRam(old(pm.vmm.Abs()).mem, Page(dir))
    ensures pm.vmm.Abs() == WithThunk(old(pm.vmm.Abs()), Page(dir))
  {
    MapInto(pm.vmm, dir, THUNK, THUNK, USER_READABLE, dirs);
  }

  /** The kernel stack of a user thread. */
  method UserStack(pm: ProcessManager, dir: Word, entry: Word, ghost dirs: set<nat>) returns (top: Word, saved: Word)
    requires Usable(pm.vmm, dir, dirs) && HasFrame(pm.vmm.pmm.Abs()) && pm.sched.Valid() && pm.Disjoint()
    modifies pm.vmm.ram, pm.vmm.pmm`used, pm.vmm.pmm.bitmap
    ensures pm.sched.Valid() && pm.sched.Abs() == old(pm.sched.Abs())
    ensures Usable(pm.vmm, dir, dirs) && StackMade(old(pm.vmm.Abs()), pm.vmm.Abs(), true, entry, USER_ESP, top, saved)
  {
    ghost var v := pm.vmm.Abs();
    top, saved := pm.NewStack(true, entry, USER_ESP);
    StackIsData(v, pm.vmm.Abs(), dirs, true, entry, USER_ESP, top, saved);
  }

  /** The memory a user thread starts with: its kernel stack, and the thunk page. */
  method PrepareUser(pm: ProcessManager, dir: Word, entry: Word, ghost dirs: set<nat>)
    returns (top: Word, saved: Word, ghost mid: Vm)
    requires Usable(pm.vmm, dir, dirs) && HasFrame(pm.vmm.pmm.Abs()) && pm.sched.Valid() && pm.Disjoint()
    modifies pm.vmm.ram, pm.vmm.pmm`used, pm.vmm.pmm.bitmap
    ensures pm.sched.Valid() && pm.sched.Abs() == old(pm.sched.Abs()) && Usable(pm.vmm, dir, dirs)
    ensures StackMade(old(pm.vmm.Abs()), mid, true, entry, USER_ESP, top, saved)
    ensures Roomy(mid) && InRam(mid.mem, Page(dir)) && pm.vmm.Abs() == WithThunk(mid, Page(dir))
  {
    top, saved := UserStack(pm, dir, entry, dirs);
    mid := pm.vmm.Abs();
    MapThunk(pm, dir, dirs);
  }

  /** The fields and the queue place of a user thread, which leave the address spaces alone. */
  method QueueUser(pm: ProcessManager, t: Scheduler.Thread, pid: nat, top: Word, saved: Word)
    requires pm.sched.Valid() && pm.sched.Entry(t) && t.place < 0 && pm.Disjoint() && pm.vmm.Valid()
    modifies pm.sched, pm.sched.threads
    ensures pm.sched.Valid() && pm.vmm.Valid() && pm.vmm.Abs() == old(pm.vmm.Abs())
    ensures t.slot < |old(pm.sched.Abs()).tcbs|
    ensures pm.sched.Abs() == var s := old(pm.sched.Abs());
      s.(tcbs := s.tcbs[t.slot := Tcb(old(t.tid), pid, Ready, true, top, saved, 5)], queue := s.queue + [t.slot])
  {
    pm.Enqueue(t, pid, true, top, saved);
    assert unchanged(pm.vmm) && unchanged(pm.vmm.ram) && unchanged(pm.vmm.pmm) && unchanged(pm.vmm.pmm.bitmap);
  }

  /** What is left when no process is created: a slot given up, and what was mapped for it. */
  ghost predicate NotCreated(s: Sched, s': Sched, v: Vm, v': Vm, r: Space, pid: nat) {
    var i := FreeProc(s.procs, 0);
    if i == |s.procs| then s' == s && v' == v
    else s' == s.(procs := s.procs[i := Pcb(false, pid, r.dir)]) && v' == r.vm
  }

  /** What is left when a process is created. */
  ghost predicate UserCreated(s: Sched, s': Sched, v': Vm, mid: Vm, r: Space, pid: nat, tid: nat,
                              entry: Word, top: Word, saved: Word)
  {
    && HasSlots(s) && s' == Spawned(s, Tcb(tid, pid, Ready, true, top, saved, 5), Pcb(true, pid, r.dir))
    && StackMade(r.vm, mid, true, entry, 0x7FFE_FFFC, top, saved)
    && Roomy(mid) && InRam(mid.mem, Page(r.dir)) && v' == WithThunk(mid, Page(r.dir))
  }

  /** What proc_create_user comes to: a process in its slot, or no process. */
  ghost predicate Outcome(s: Sched, s': Sched, v: Vm, v': Vm, mid: Vm, r: Space, p: Option<nat>, pid: nat, tid: nat, tid': nat,
                          entry: Word, top: Word, saved: Word)
  {
    if HasSlots(s) && r.ok then
      p == Some(FreeProc(s.procs, 0)) && tid' == tid + 1 && UserCreated(s, s', v', mid, r, pid, tid, entry, top, saved)
    else p == None && tid' == tid && NotCreated(s, s', v, v', r, pid)
  }

  /** proc_create_user. A process that cannot have its slots or its stack pages is given up; the frames it
      already took are not returned. The kernel stack's frame is used unchecked, so there must be one. */
  method CreateUser(pm: ProcessManager, codePhys: Word, codeSize: Word, entry: Word, ghost dirs: set<nat>)
    returns (p: Option<nat>, ghost mid: Vm, ghost top: Word, ghost saved: Word)
    requires pm.Tidy() && pm.Disjoint() && Known(pm.vmm, dirs)
    requires Roomy(pm.vmm.Abs()) && InRam(pm.vmm.Abs().mem, Page(pm.vmm.kernelDir))
    requires var r := UserSpace(pm.vmm.Abs(), codePhys, codeSize, entry);
      HasSlots(pm.sched.Abs()) && r.ok ==> HasFrame(r.vm.pmm)
    modifies pm, pm.sched, pm.sched.threads, pm.sched.procs, pm.vmm.ram, pm.vmm.pmm`used, pm.vmm.pmm.bitmap
    ensures pm.sched.Valid() && pm.vmm.Valid()
    ensures var s, v, pid := old(pm.sched.Abs()), old(pm.vmm.Abs()), old(pm.nextPid);
      && pm.nextPid == (if FreeProc(s.procs, 0) < |s.procs| then pid + 1 else pid)
      && Outcome(s, pm.sched.Abs(), v, pm.vmm.Abs(), mid, UserSpace(v, codePhys, codeSize, entry), p,
                 pid, old(pm.nextTid), pm.nextTid, entry, top, saved)
  {
    p, mid, top, saved := CreateIn(pm, codePhys, codeSize, entry, dirs, UserSpace(pm.vmm.Abs(), codePhys, codeSize, entry));
  }

  /** proc_create_user, whose address space will be r. */
  method CreateIn(pm: ProcessManager, codePhys: Word, codeSize: Word, entry: Word, ghost dirs: set<nat>, ghost r: Space)
    returns (p: Option<nat>, ghost mid: Vm, ghost top: Word, ghost saved: Word)
    requires pm.Tidy() && pm.Disjoint() && Known(pm.vmm, dirs)
    requires Roomy(pm.vmm.Abs()) && InRam(pm.vmm.Abs().mem, Page(pm.vmm.kernelDir))
    requires r == UserSpace(pm.vmm.Abs(), codePhys, codeSize, entry)
    requires HasSlots(pm.sched.Abs()) && r.ok ==> HasFrame(r.vm.pmm)
    modifies pm, pm.sched, pm.sched.threads, pm.sched.procs, pm.vmm.ram, pm.vmm.pmm`used, pm.vmm.pmm.bitmap
    ensures pm.sched.Valid() && pm.vmm.Valid()
    ensures var s, pid := old(pm.sched.Abs()), old(pm.nextPid);
      && pm.nextPid == (if FreeProc(s.procs, 0) < |s.procs| then pid + 1 else pid)
      && Outcome(s, pm.sched.Abs(), old(pm.vmm.Abs()), pm.vmm.Abs(), mid, r, p, pid, old(pm.nextTid), pm.nextTid, entry, top, saved)
  {
    ghost var s, v, pid, tid := pm.sched.Abs(), pm.vmm.Abs(), pm.nextPid, pm.nextTid;
    mid, top, saved := v, 0, 0;
    assert s == old(pm.sched.Abs()) && v == old(pm.vmm.Abs());
    var dir;
    p, dir := AllocSpace(pm, codePhys, codeSize, entry, dirs, s, v, r, pid);
    if p.Some? {
      p, mid, top, saved := FinishUser(pm, p.value, dir, entry, WithDirectory(dirs, dir), s, v, r, pid, tid);
    }
  }

  /** The second half of proc_create_user, once process p has its address space. */
  method FinishUser(pm: ProcessManager, p: nat, dir: Word, entry: Word, ghost dirs: set<nat>,
                    ghost s: Sched, ghost v: Vm, ghost r: Space, ghost pid: nat, ghost tid: nat)
    returns (p': Option<nat>, ghost mid: Vm, ghost top: Word, ghost saved: Word)
    requires pm.Tidy() && pm.Disjoint() && pm.nextTid == tid
    requires Usable(pm.vmm, dir, dirs) && pm.vmm.Abs() == r.vm && dir == r.dir && r.ok
    requires ThreadSlot(s.tcbs) < |s.tcbs| ==> HasFrame(r.vm.pmm)
    requires p < |s.procs| && p == FreeProc(s.procs, 0) && pm.sched.Abs() == s.(procs := s.procs[p := Pcb(true, pid, dir)])
    modifies pm`nextTid, pm.sched, pm.sched.threads, pm.sched.procs, pm.vmm.ram, pm.vmm.pmm`used, pm.vmm.pmm.bitmap
    ensures pm.sched.Valid() && pm.vmm.Valid()
    ensures Outcome(s, pm.sched.Abs(), v, pm.vmm.Abs(), mid, r, p', pid, tid, pm.nextTid, entry, top, saved)
  {
    mid, top, saved := r.vm, 0, 0;
    var t := ThreadForUser(pm, p, s, Pcb(true, pid, dir), dirs);
    if t == null { return None, mid, 0, 0; }
    p' := Some(p);
    var owner := pm.sched.procs[p].pid;
    assert owner == pid && HasSlots(s) && t.tid == tid;
    mid, top, saved := StartUser(pm, t, owner, dir, entry, dirs, s, r);
  }

  lemma IsCreated(s: Sched, s1: Sched, s': Sched, v': Vm, mid: Vm, r: Space, pid: nat, tid: nat, entry: Word, top: Word, saved: Word)
    requires HasSlots(s)
    requires var i, j := FreeProc(s.procs, 0), ThreadSlot(s.tcbs);
      && s1 == s.(tcbs := s.tcbs[j := Tcb(tid, 0, Ready, false, 0, 0, 0)], procs := s.procs[i := Pcb(true, pid, r.dir)])
      && s' == s1.(tcbs := s1.tcbs[j := Tcb(tid, pid, Ready, true, top, saved, 5)], queue := s1.queue + [j])
    requires StackMade(r.vm, mid, true, entry, USER_ESP, top, saved)
    requires Roomy(mid) && InRam(mid.mem, Page(r.dir)) && v' == WithThunk(mid, Page(r.dir))
    ensures UserCreated(s, s', v', mid, r, pid, tid, entry, top, saved)
  {
    SetTwice(s.tcbs, ThreadSlot(s.tcbs), Tcb(tid, 0, Ready, false, 0, 0, 0), Tcb(tid, pid, Ready, true, top, saved, 5));
  }

  /** The stack, the thunk page, the fields and the queue place of a user thread, whose slots it has. */
  method StartUser(pm: ProcessManager, t: Scheduler.Thread, pid: nat, dir: Word, entry: Word, ghost dirs: set<nat>,
                   ghost s: Sched, ghost r: Space)
    returns (ghost mid: Vm, ghost top: Word, ghost saved: Word)
    requires pm.sched.Valid() && pm.sched.Entry(t) && t.place < 0 && pm.Disjoint() && HasSlots(s) && t.slot == ThreadSlot(s.tcbs)
    requires pm.sched.Abs() == s.(tcbs := s.tcbs[t.slot := Tcb(t.tid, 0, Ready, false, 0, 0, 0)],
                                  procs := s.procs[FreeProc(s.procs, 0) := Pcb(true, pid, dir)])
    requires Usable(pm.vmm, dir, dirs) && HasFrame(pm.vmm.pmm.Abs()) && pm.vmm.Abs() == r.vm && dir == r.dir
    modifies pm.sched, pm.sched.threads, pm.vmm.ram, pm.vmm.pmm`used, pm.vmm.pmm.bitmap
    ensures pm.sched.Valid() && pm.vmm.Valid()
    ensures UserCreated(s, pm.sched.Abs(), pm.vmm.Abs(), mid, r, pid, old(t.tid), entry, top, saved)
  {
    ghost var s1, tid := pm.sched.Abs(), t.tid;
    var stackTop, context;
    stackTop, context, mid := PrepareUser(pm, dir, entry, dirs);
    top, saved := stackTop, context;
    QueueUser(pm, t, pid, stackTop, context);
    IsCreated(s, s1, pm.sched.Abs(), pm.vmm.Abs(), mid, r, pid, tid, entry, top, saved);
  }

  /** alloc_thread for a user process, which leaves the address spaces alone. */
  method ThreadForUser(pm: ProcessManager, p: nat, ghost s: Sched, ghost pcb: Pcb, ghost dirs: set<nat>) returns (t: Scheduler.Thread?)
    requires pm.Tidy() && p < |s.procs| && pm.sched.Abs() == s.(procs := s.procs[p := pcb]) && pcb.active
    requires pm.Disjoint() && Usable(pm.vmm, pcb.pageDir, dirs)
    modifies pm`nextTid, pm.sched.threads, pm.sched.procs
    ensures pm.sched.Valid() && Usable(pm.vmm, pcb.pageDir, dirs) && pm.vmm.Abs() == old(pm.vmm.Abs())
    ensures t != null ==> p < pm.sched.procs.Length && pm.sched.procs[p] == pcb
    ensures var j, tid := ThreadSlot(s.tcbs), old(pm.nextTid);
      if j == |s.tcbs| then t == null && pm.nextTid == tid && pm.sched.Abs() == s.(procs := s.procs[p := pcb.(active := false)])
      else
        && t != null && pm.sched.Entry(t) && t.slot == j && t.place < 0 && t.tid == tid && pm.nextTid == tid + 1
        && pm.sched.Abs() == s.(tcbs := s.tcbs[t.slot := Tcb(tid, 0, Ready, false, 0, 0, 0)], procs := s.procs[p := pcb])
  {
    t := pm.ThreadFor(p, s, pcb);
    assert |pm.sched.Abs().procs| == |s.procs| && pm.sched.Abs().procs[p] == if t == null then pcb.(active := false) else pcb;
    assert unchanged(pm.vmm) && unchanged(pm.vmm.ram) && unchanged(pm.vmm.pmm) && unchanged(pm.vmm.pmm.bitmap);
  }

  /** The process slot and the address space of a user process. */
  method AllocSpace(pm: ProcessManager, codePhys: Word, codeSize: Word, entry: Word, ghost dirs: set<nat>,
                    ghost s: Sched, ghost v: Vm, ghost r: Space, ghost pid: nat)
    returns (p: Option<nat>, dir: Word)
    requires pm.Tidy() && pm.Disjoint() && Known(pm.vmm, dirs) && s == pm.sched.Abs() && v == pm.vmm.Abs() && pm.nextPid == pid
    requires Roomy(v) && InRam(v.mem, Page(v.kernelDir)) && r == UserSpace(v, codePhys, codeSize, entry)
    modifies pm`nextPid, pm.sched.procs, pm.vmm.ram, pm.vmm.pmm`used, pm.vmm.pmm.bitmap
    ensures pm.Tidy() && pm.vmm.Valid() && pm.nextPid == (if FreeProc(s.procs, 0) < |s.procs| then pid + 1 else pid)
    ensures var i := FreeProc(s.procs, 0);
      if i < |s.procs| && r.ok then
        && p == Some(i) && dir == r.dir && Usable(pm.vmm, dir, WithDirectory(dirs, dir)) && pm.vmm.Abs() == r.vm
        && pm.sched.Abs() == s.(procs := s.procs[i := Pcb(true, pid, dir)])
      else p == None && pm.nextTid == old(pm.nextTid) && NotCreated(s, pm.sched.Abs(), v, pm.vmm.Abs(), r, pid)
  {
    dir := 0;
    p := Home(pm, dirs);
    if p.None? { return; }
    var ok;
    dir, ok := SpaceFor(pm, codePhys, codeSize, entry, dirs);
    p := Settle(pm, p.value, dir, ok, s, pid, WithDirectory(dirs, dir));
  }

  /** alloc_process, which leaves the address spaces alone. */
  method Home(pm: ProcessManager, ghost dirs: set<nat>) returns (p: Option<nat>)
    requires pm.Tidy() && pm.Disjoint() && Known(pm.vmm, dirs)
    modifies pm`nextPid, pm.sched.procs
    ensures pm.Tidy() && Known(pm.vmm, dirs) && pm.vmm.Abs() == old(pm.vmm.Abs())
    ensures var s, pid := old(pm.sched.Abs()), old(pm.nextPid); var i := FreeProc(s.procs, 0);
      if i == |s.procs| then p == None && pm.sched.Abs() == s && pm.nextPid == pid
      else p == Some(i) && pm.sched.Abs() == s.(procs := s.procs[i := Pcb(true, pid, 0)]) && pm.nextPid == pid + 1
  {
    p := pm.AllocHome(0);
    assert unchanged(pm.vmm) && unchanged(pm.vmm.ram) && unchanged(pm.vmm.pmm) && unchanged(pm.vmm.pmm.bitmap);
  }

  /** The address space, which leaves the tables alone. */
  method SpaceFor(pm: ProcessManager, codePhys: Word, codeSize: Word, entry: Word, ghost dirs: set<nat>)
    returns (dir: Word, ok: bool)
    requires pm.Tidy() && pm.Disjoint() && Known(pm.vmm, dirs)
    modifies pm.vmm.ram, pm.vmm.pmm`used, pm.vmm.pmm.bitmap
    ensures pm.Tidy() && pm.sched.Abs() == old(pm.sched.Abs())
    ensures pm.vmm.Valid() && (dir != 0 ==> Usable(pm.vmm, dir, WithDirectory(dirs, dir))) && (ok ==> dir != 0)
    ensures Roomy(old(pm.vmm.Abs())) && InRam(old(pm.vmm.Abs()).mem, Page(old(pm.vmm.kernelDir)))
    ensures Space(pm.vmm.Abs(), dir, ok) == UserSpace(old(pm.vmm.Abs()), codePhys, codeSize, entry)
  {
    dir, ok := MapSpace(pm.vmm, codePhys, codeSize, entry, dirs);
  }

  /** The directory is entered in the process slot; without an address space the process is given up. */
  method Settle(pm: ProcessManager, p: nat, dir: Word, ok: bool, ghost s: Sched, ghost pid: nat, ghost dirs: set<nat>)
    returns (r: Option<nat>)
    requires pm.Tidy() && p < |s.procs| && pm.sched.Abs() == s.(procs := s.procs[p := Pcb(true, pid, 0)])
    requires pm.Disjoint() && pm.vmm.Valid() && (ok ==> Usable(pm.vmm, dir, dirs))
    modifies pm.sched.procs
    ensures pm.Tidy() && r == (if ok then Some(p) else None) && pm.sched.Abs() == s.(procs := s.procs[p := Pcb(ok, pid, dir)])
    ensures pm.vmm.Valid() && (ok ==> Usable(pm.vmm, dir, dirs)) && pm.vmm.Abs() == old(pm.vmm.Abs())
  {
    SetTwice(s.procs, p, Pcb(true, pid, 0), Pcb(true, pid, dir));
    pm.SetProc(p, pm.sched.procs[p].(pageDir := dir));
    r := Some(p);
    if !ok {
      SetTwice(s.procs, p, Pcb(true, pid, dir), Pcb(false, pid, dir));
      pm.SetProc(p, pm.sched.procs[p].(active := false));
      r := None;
    }
    assert unchanged(pm.vmm) && unchanged(pm.vmm.ram) && unchanged(pm.vmm.pmm) && unchanged(pm.vmm.pmm.bitmap);
  }
}
