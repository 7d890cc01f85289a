/**
 The process manager in place: slots of the process and thread tables, the first frame of a new kernel
 stack, and the creation of the idle process and of kernel processes.
 */
module Processes {
  import opened Basics
  import opened Frames
  import opened SchedulerSpec
  import opened Scheduler
  import AddressSpaces
  import Paging
  import Pmm
  import Vmm

  // ---- slots ------------------------------------------------------------------------------------

  /** The first inactive process slot from i on, or the size of the table. */
  function FreeProc(procs: seq<Pcb>, i: nat): (r: nat)
    requires i <= |procs|
    ensures i <= r <= |procs| && (r < |procs| ==> !procs[r].active)
    ensures forall k :: i <= k < r ==> procs[k].active
    decreases |procs| - i
  {
    if i == |procs| || !procs[i].active then i else FreeProc(procs, i + 1)
  }

  /** The first slot from i on that was never used; with dead, one that is also marked dead. */
  function FreeThread(tcbs: seq<Tcb>, dead: bool, i: nat): (r: nat)
    requires i <= |tcbs|
    ensures i <= r <= |tcbs| && (r < |tcbs| ==> tcbs[r].tid == 0 && (dead ==> tcbs[r].state.Dead?))
    ensures forall k :: i <= k < r ==> tcbs[k].tid != 0 || (dead && !tcbs[k].state.Dead?)
    decreases |tcbs| - i
  {
    if i == |tcbs| || (tcbs[i].tid == 0 && (dead ==> tcbs[i].state.Dead?)) then i else FreeThread(tcbs, dead, i + 1)
  }

  /** The slot alloc_thread takes: a dead one first, then any that was never used. */
  function ThreadSlot(tcbs: seq<Tcb>): (r: nat)
    ensures r <= |tcbs| && (r < |tcbs| ==> tcbs[r].tid == 0)
    ensures r == |tcbs| ==> forall k :: 0 <= k < |tcbs| ==> tcbs[k].tid != 0
    ensures r < |tcbs| ==> forall k :: 0 <= k < r && tcbs[k].tid == 0 ==> tcbs[r].state.Dead? && !tcbs[k].state.Dead?
    ensures r < |tcbs| && !tcbs[r].state.Dead? ==> forall k :: 0 <= k < |tcbs| && tcbs[k].tid == 0 ==> !tcbs[k].state.Dead?
  {
    var r := FreeThread(tcbs, true, 0);
    if r < |tcbs| then r else FreeThread(tcbs, false, 0)
  }

  /** There is a slot for a process and one for its thread. */
  predicate HasSlots(s: Sched) { FreeProc(s.procs, 0) < |s.procs| && ThreadSlot(s.tcbs) < |s.tcbs| }

  /** The scheduler's state after a creation that found its slots. */
  function Spawned(s: Sched, tcb: Tcb, pcb: Pcb): Sched
    requires FreeProc(s.procs, 0) < |s.procs| && ThreadSlot(s.tcbs) < |s.tcbs|
  {
    s.(tcbs := s.tcbs[ThreadSlot(s.tcbs) := tcb], procs := s.procs[FreeProc(s.procs, 0) := pcb],
       queue := s.queue + [ThreadSlot(s.tcbs)])
  }

  // ---- first frames -------------------------------------------------------------------------------

  /** setup_kernel_stack: 17 words, written downwards from the top of the stack. */
  method SetupKernelStack(ram: array<Word>, stackTop: Word, entry: Word) returns (saved: Word)
    requires stackTop % 4 == 0 && 68 <= stackTop && stackTop / 4 <= ram.Length
    modifies ram
    ensures saved == stackTop - 68 && saved % 4 == 0
    ensures ram[..] == Splice(old(ram[..]), saved / 4, StartFrame(false, entry, 0))
    ensures ram[saved / 4 + 14] == entry && ram[saved / 4 + 15] == 0x08 && ram[saved / 4 + 16] == 0x202
  {
    var esp := stackTop / 4;
    esp := esp - 1; ram[esp] := INTERRUPTS_ON;
    esp := esp - 1; ram[esp] := KERNEL_CODE;
    esp := esp - 1; ram[esp] := entry;
    esp := ZerosBelow(ram, esp, 10);   // error code, vector, and the PUSHA block
    esp := esp - 1; ram[esp] := KERNEL_DATA;
    esp := esp - 1; ram[esp] := KERNEL_DATA;
    esp := esp - 1; ram[esp] := KERNEL_DATA;
    esp := esp - 1; ram[esp] := KERNEL_DATA;
    saved := 4 * esp;
  }

  /** setup_user_stack: 19 words. */
  method SetupUserStack(ram: array<Word>, stackTop: Word, entry: Word, userEsp: Word) returns (saved: Word)
    requires stackTop % 4 == 0 && 76 <= stackTop && stackTop / 4 <= ram.Length
    modifies ram
    ensures saved == stackTop - 76 && saved % 4 == 0
    ensures ram[..] == Splice(old(ram[..]), saved / 4, StartFrame(true, entry, userEsp))
    ensures ram[saved / 4 + 14] == entry && ram[saved / 4 + 15] == 0x1B && ram[saved / 4 + 16] == 0x202
    ensures ram[saved / 4 + 17] == userEsp && ram[saved / 4 + 18] == 0x23
  {
    var esp := stackTop / 4;
    esp := esp - 1; ram[esp] := USER_DATA;
    esp := esp - 1; ram[esp] := userEsp;
    esp := esp - 1; ram[esp] := INTERRUPTS_ON;
    esp := esp - 1; ram[esp] := USER_CODE;
    esp := esp - 1; ram[esp] := entry;
    esp := ZerosBelow(ram, esp, 10);   // error code, vector, and the PUSHA block
    esp := esp - 1; ram[esp] := USER_DATA;
    esp := esp - 1; ram[esp] := USER_DATA;
    esp := esp - 1; ram[esp] := USER_DATA;
    esp := esp - 1; ram[esp] := USER_DATA;
    saved := 4 * esp;
  }

  /** The run of zeros both frames have in the middle. */
  method ZerosBelow(ram: array<Word>, top: nat, n: nat) returns (esp: nat)
    requires n <= top <= ram.Length
    modifies ram
    ensures esp == top - n
    ensures forall w :: 0 <= w < ram.Length ==> ram[w] == if esp <= w < top then 0 else old(ram[w])
  {
    esp := top;
    for i := 0 to n
      invariant esp == top - i
      invariant forall w :: 0 <= w < ram.Length ==> ram[w] == if esp <= w < top then 0 else old(ram[w])
    {
      esp := esp - 1; ram[esp] := 0;
    }
  }

  // ---- the manager --------------------------------------------------------------------------------

  class ProcessManager {
    const sched: Dispatcher
    const vmm: Vmm.Manager
    var nextPid: nat
    var nextTid: nat

    constructor (sched: Dispatcher, vmm: Vmm.Manager)
      ensures this.sched == sched && this.vmm == vmm && nextPid == 1 && nextTid == 1
    {
      this.sched, this.vmm, nextPid, nextTid := sched, vmm, 1, 1;
    }

    /** alloc_process: the first inactive slot, zeroed, with the next pid. */
    method AllocProcess() returns (p: Option<nat>)
      modifies this`nextPid, sched.procs
      ensures var procs := old(sched.procs[..]); var i := FreeProc(procs, 0);
        if i < |procs| then p == Some(i) && nextPid == old(nextPid) + 1 && sched.procs[..] == procs[i := Pcb(true, old(nextPid), 0)]
        else p == None && nextPid == old(nextPid) && sched.procs[..] == procs
    {
      ghost var procs := sched.procs[..];
      for i := 0 to sched.procs.Length
        invariant nextPid == old(nextPid) && sched.procs[..] == procs && FreeProc(procs, 0) == FreeProc(procs, i)
      {
        if !sched.procs[i].active {
          sched.procs[i] := Pcb(true, nextPid, 0);
          nextPid := nextPid + 1;
          return Some(i);
        }
      }
      return None;
    }

    /** A search of alloc_thread. */
    method FindThread(dead: bool) returns (t: Thread?)
      requires sched.Valid()
      ensures var tcbs := sched.Abs().tcbs; var i := FreeThread(tcbs, dead, 0);
        t == if i < |tcbs| then sched.threads[i] else null
    {
      ghost var tcbs := sched.Abs().tcbs;
      for i := 0 to |sched.threads|
        invariant FreeThread(tcbs, dead, 0) == FreeThread(tcbs, dead, i)
      {
        var t := sched.threads[i];
        assert tcbs[i] == t.Record();
        if t.tid == 0 && (dead ==> t.state.Dead?) { return t; }
      }
      return null;
    }

    /** memset of a thread slot, and its new tid. */
    method Claim(t: Thread)
      requires sched.Valid() && sched.Entry(t) && t.place < 0
      modifies this`nextTid, t`tid, t`pid, t`state, t`user, t`stackTop, t`saved, t`quantum, t`next
      ensures sched.Valid() && nextTid == old(nextTid) + 1 && t.slot < |old(sched.Abs()).tcbs|
      ensures sched.Abs() == var s := old(sched.Abs()); s.(tcbs := s.tcbs[t.slot := Tcb(old(nextTid), 0, Ready, false, 0, 0, 0)])
    {
      assert sched.PlaceAt(t.slot);
      t.pid, t.state, t.user, t.stackTop, t.saved, t.quantum, t.next := 0, Ready, false, 0, 0, 0, null;
      t.tid := nextTid;
      nextTid := nextTid + 1;
      sched.Rewritten(t);
    }

    /** alloc_thread: the first search looks for a dead slot, the second for one never used. */
    method AllocThread() returns (t: Thread?)
      requires sched.Valid() && forall t :: t in sched.threads && t.tid == 0 ==> t.place < 0
      modifies this`nextTid, sched.threads
      ensures sched.Valid()
      ensures var s := old(sched.Abs()); var i := ThreadSlot(s.tcbs);
        if i < |s.tcbs| then
          && t == sched.threads[i] && t.slot == i && t.place < 0 && nextTid == old(nextTid) + 1
          && sched.Abs() == s.(tcbs := s.tcbs[i := Tcb(old(nextTid), 0, Ready, false, 0, 0, 0)])
        else t == null && nextTid == old(nextTid) && sched.Abs() == s
    {
      ghost var tcbs := sched.Abs().tcbs;
      t := FindThread(true);
      if t == null {
        t := FindThread(false);
      }
      if t != null {
        assert sched.PlaceAt(ThreadSlot(tcbs)) && tcbs[ThreadSlot(tcbs)] == t.Record();
        Claim(t);
      }
    }

    /** A frame for a kernel stack; the frame is in RAM. */
    method TakeStack() returns (kstack: Word)
      requires vmm.Valid() && AddressSpaces.HasFrame(vmm.pmm.Abs())
      modifies vmm.pmm`used, vmm.pmm.bitmap
      ensures vmm.Valid() && (vmm.pmm.Abs(), kstack) == Pmm.Alloc(old(vmm.pmm.Abs()))
      ensures kstack % 4 == 0 && kstack + PAGE_SIZE < TWO_TO_THE_32 && (kstack + PAGE_SIZE) / 4 <= vmm.ram.Length
    {
      ghost var v := vmm.Abs();
      kstack := vmm.pmm.AllocFrame();
      StackFrame(v, vmm.pmm.Abs(), kstack);
    }

    /** setup_kernel_stack or setup_user_stack */
    method SetupStack(user: bool, top: Word, entry: Word, userEsp: Word) returns (saved: Word)
      requires top % 4 == 0 && PAGE_SIZE <= top && top / 4 <= vmm.ram.Length
      modifies vmm.ram
      ensures saved == top - 4 * FrameSize(user) && saved % 4 == 0 && saved / 4 + FrameSize(user) <= |old(vmm.ram[..])|
      ensures vmm.ram[..] == Splice(old(vmm.ram[..]), saved / 4, StartFrame(user, entry, userEsp))
    {
      if user {
        saved := SetupUserStack(vmm.ram, top, entry, userEsp);
      } else {
        saved := SetupKernelStack(vmm.ram, top, entry);
      }
    }

    /** A kernel stack frame for a thread: what both kinds of creation do with the frame they get. */
    method NewStack(user: bool, entry: Word, userEsp: Word) returns (top: Word, saved: Word)
      requires vmm.Valid() && AddressSpaces.HasFrame(vmm.pmm.Abs())
      modifies vmm.ram, vmm.pmm`used, vmm.pmm.bitmap
      ensures vmm.Valid() && StackMade(old(vmm.Abs()), vmm.Abs(), user, entry, userEsp, top, saved)
    {
      var kstack := TakeStack();
      top := kstack + PAGE_SIZE;
      saved := SetupStack(user, top, entry, userEsp);
    }

    /** The fields of a new thread. */
    method Fill(t: Thread, pid: nat, user: bool, quantum: int, top: Word, saved: Word)
      requires sched.Valid() && sched.Entry(t)
      modifies t`pid, t`user, t`quantum, t`state, t`stackTop, t`saved
      ensures sched.Valid() && t.slot < |old(sched.Abs()).tcbs|
      ensures sched.Abs() == var s := old(sched.Abs());
        s.(tcbs := s.tcbs[t.slot := Tcb(old(t.tid), pid, Ready, user, top, saved, quantum)])
    {
      t.pid, t.user, t.quantum, t.state, t.stackTop, t.saved := pid, user, quantum, Ready, top, saved;
      sched.Rewritten(t);
    }

    /** The process slot changes alone. */
    method SetProc(p: nat, pcb: Pcb)
      requires sched.Valid() && p < sched.procs.Length
      modifies sched.procs
      ensures sched.Valid() && sched.Abs() == old(sched.Abs()).(procs := old(sched.Abs()).procs[p := pcb])
    {
      sched.procs[p] := pcb;
    }

    /** What the creation of a process needs of the tables: threads never used are not queued. */
    ghost predicate Tidy()
      reads sched, sched.threads
    {
      sched.Valid() && forall t :: t in sched.threads && t.tid == 0 ==> t.place < 0
    }

    /** The process table and the frame bitmap are different arrays. */
    ghost predicate Disjoint() {
      vmm.pmm.bitmap as object != sched.procs
    }

    /** The last steps of both kinds of creation: a stack for the thread, its fields, and the queue. */
    method StartThread(t: Thread, pid: nat, user: bool, entry: Word, userEsp: Word) returns (ghost top: Word, ghost saved: Word)
      requires sched.Valid() && sched.Entry(t) && t.place < 0 && Disjoint()
      requires vmm.Valid() && AddressSpaces.HasFrame(vmm.pmm.Abs())
      modifies sched, sched.threads, vmm.ram, vmm.pmm`used, vmm.pmm.bitmap
      ensures sched.Valid() && vmm.Valid() && StackMade(old(vmm.Abs()), vmm.Abs(), user, entry, userEsp, top, saved)
      ensures t.slot < |old(sched.Abs()).tcbs|
      ensures sched.Abs() == var s := old(sched.Abs());
        s.(tcbs := s.tcbs[t.slot := Tcb(old(t.tid), pid, Ready, user, top, saved, 5)], queue := s.queue + [t.slot])
    {
      var stackTop, context := NewStack(user, entry, userEsp);
      top, saved := stackTop, context;
      Enqueue(t, pid, user, stackTop, context);
    }

    method Enqueue(t: Thread, pid: nat, user: bool, top: Word, saved: Word)
      requires sched.Valid() && sched.Entry(t) && t.place < 0
      modifies sched, sched.threads
      ensures sched.Valid() && t.slot < |old(sched.Abs()).tcbs|
      ensures sched.Abs() == var s := old(sched.Abs());
        s.(tcbs := s.tcbs[t.slot := Tcb(old(t.tid), pid, Ready, user, top, saved, 5)], queue := s.queue + [t.slot])
    {
      Fill(t, pid, user, 5, top, saved);
      sched.AddThread(t);
    }

    /** alloc_process, with the page directory the process is given. */
    method AllocHome(pageDir: Word) returns (p: Option<nat>)
      requires sched.Valid()
      modifies this`nextPid, sched.procs
      ensures sched.Valid()
      ensures var s, pid := old(sched.Abs()), old(nextPid); var i := FreeProc(s.procs, 0);
        if i == |s.procs| then p == None && sched.Abs() == s && nextPid == pid
        else p == Some(i) && sched.Abs() == s.(procs := s.procs[i := Pcb(true, pid, pageDir)]) && nextPid == pid + 1
    {
      ghost var s := sched.Abs();
      p := AllocProcess();
      if p.None? { return; }
      SetTwice(s.procs, p.value, sched.procs[p.value], Pcb(true, old(nextPid), pageDir));
      SetProc(p.value, sched.procs[p.value].(pageDir := pageDir));
    }

    /** The thread of the new process in slot p; a process without a thread is given up again. */
    method ThreadFor(p: nat, ghost s: Sched, ghost pcb: Pcb) returns (t: Thread?)
      requires Tidy() && p < |s.procs| && sched.Abs() == s.(procs := s.procs[p := pcb]) && pcb.active
      modifies this`nextTid, sched.threads, sched.procs
      ensures sched.Valid()
      ensures var j := ThreadSlot(s.tcbs);
        if j == |s.tcbs| then t == null && nextTid == old(nextTid) && sched.Abs() == s.(procs := s.procs[p := pcb.(active := false)])
        else
          && t != null && sched.Entry(t) && t.slot == j && t.place < 0 && t.tid == old(nextTid) && nextTid == old(nextTid) + 1
          && sched.Abs() == s.(tcbs := s.tcbs[j := Tcb(old(nextTid), 0, Ready, false, 0, 0, 0)], procs := s.procs[p := pcb])
    {
      t := AllocThread();
      if t == null {
        SetTwice(s.procs, p, pcb, pcb.(active := false));
        SetProc(p, sched.procs[p].(active := false));
      }
    }

    /** The slots of a new process and its thread. */
    method AllocSlots(pageDir: Word) returns (p: Option<nat>, t: Thread?)
      requires Tidy()
      modifies this, sched.threads, sched.procs
      ensures sched.Valid()
      ensures var s, pid := old(sched.Abs()), old(nextPid); var i, j := FreeProc(s.procs, 0), ThreadSlot(s.tcbs);
        if i == |s.procs| then p == None && sched.Abs() == s && nextPid == pid && nextTid == old(nextTid)
        else if j == |s.tcbs| then
          && p == None && nextPid == pid + 1 && nextTid == old(nextTid)
          && sched.Abs() == s.(procs := s.procs[i := Pcb(false, pid, pageDir)])
        else
          && p == Some(i) && t != null && sched.Entry(t) && t.slot == j && t.place < 0 && t.tid == old(nextTid)
          && nextPid == pid + 1 && nextTid == old(nextTid) + 1
          && sched.Abs() == s.(tcbs := s.tcbs[j := Tcb(old(nextTid), 0, Ready, false, 0, 0, 0)],
                               procs := s.procs[i := Pcb(true, pid, pageDir)])
    {
      ghost var s, pid := sched.Abs(), nextPid;
      t := null;
      p := AllocHome(pageDir);
      if p.None? { return; }
      t := ThreadFor(p.value, s, Pcb(true, pid, pageDir));
      if t == null {
        p := None;
      }
    }

    /** proc_create_kernel. The stack's frame is used unchecked, so there must be one if there are slots. */
    method CreateKernel(entry: Word) returns (p: Option<nat>, ghost top: Word, ghost saved: Word)
      requires Tidy() && Disjoint() && vmm.Valid() && (HasSlots(sched.Abs()) ==> AddressSpaces.HasFrame(vmm.pmm.Abs()))
      modifies this, sched, sched.threads, sched.procs, vmm.ram, vmm.pmm`used, vmm.pmm.bitmap
      ensures sched.Valid() && vmm.Valid()
      ensures KernelOutcome(old(sched.Abs()), sched.Abs(), old(vmm.Abs()), vmm.Abs(), p, old(nextPid), nextPid, old(nextTid), nextTid,
                            entry, top, saved)
    {
      ghost var s, pid, tid := sched.Abs(), nextPid, nextTid;
      top, saved := 0, 0;
      var t;
      p, t := AllocSlots(vmm.kernelDir);
      assert unchanged(vmm) && unchanged(vmm.ram) && unchanged(vmm.pmm) && unchanged(vmm.pmm.bitmap);
      if p.None? { return; }
      ghost var j, pcb := t.slot, Pcb(true, pid, vmm.kernelDir);
      assert sched.procs[p.value] == pcb;
      top, saved := StartThread(t, sched.procs[p.value].pid, false, entry, 0);
      SetTwice(s.tcbs, j, Tcb(tid, 0, Ready, false, 0, 0, 0), Tcb(tid, pid, Ready, false, top, saved, 5));
    }

    // ---- the idle process -------------------------------------------------------------------------

    method ClearThreads()
      requires sched.Valid() && sched.queue == []
      modifies sched.threads`tid, sched.threads`pid, sched.threads`state, sched.threads`user,
        sched.threads`stackTop, sched.threads`saved, sched.threads`quantum
      ensures sched.Valid() && forall i :: 0 <= i < |sched.threads| ==> sched.threads[i].Record() == NO_THREAD
    {
      for i := 0 to |sched.threads|
        invariant sched.Valid() && forall k :: 0 <= k < i ==> sched.threads[k].Record() == NO_THREAD
      {
        var t := sched.threads[i];
        t.tid, t.pid, t.state, t.user, t.stackTop, t.saved, t.quantum := 0, 0, Ready, false, 0, 0, 0;
        forall k: nat | k < |sched.threads| ensures sched.PlaceAt(k) {
          assert old(sched.PlaceAt(k));
        }
      }
    }

    method ClearProcs()
      modifies sched.procs
      ensures sched.procs[..] == seq(sched.procs.Length, _ => NO_PROCESS)
    {
      for i := 0 to sched.procs.Length
        invariant forall k :: 0 <= k < i ==> sched.procs[k] == NO_PROCESS
      {
        sched.procs[i] := NO_PROCESS;
      }
    }

    /** The clearing of both tables at the start of proc_init. */
    method ClearTables()
      requires sched.Valid() && sched.queue == []
      modifies sched.procs, sched.threads`tid, sched.threads`pid, sched.threads`state, sched.threads`user,
        sched.threads`stackTop, sched.threads`saved, sched.threads`quantum
      ensures sched.Valid() && sched.queue == []
      ensures sched.Abs() == Cleared(old(sched.Abs()))
    {
      ClearThreads();
      ClearProcs();
      assert sched.Records() == seq(|sched.threads|, _ => NO_THREAD);
    }

    /** The idle process: the first process, with pid 0. */
    method IdleHome()
      requires sched.Valid() && sched.queue == [] && sched.procs.Length > 0
      modifies this`nextPid, sched.procs, sched.threads`tid, sched.threads`pid, sched.threads`state, sched.threads`user,
        sched.threads`stackTop, sched.threads`saved, sched.threads`quantum
      ensures sched.Valid() && sched.queue == [] && nextPid == 1
      ensures sched.Abs() == var c := Cleared(old(sched.Abs())); c.(procs := c.procs[0 := Pcb(true, 0, vmm.kernelDir)])
    {
      ghost var c, pid := Cleared(sched.Abs()), nextPid;
      ClearTables();
      assert FreeProc(c.procs, 0) == 0;
      var p := AllocHome(vmm.kernelDir);
      SetTwice(c.procs, 0, Pcb(true, pid, vmm.kernelDir), Pcb(true, 0, vmm.kernelDir));
      SetProc(p.value, sched.procs[p.value].(pid := 0));
      nextPid := 1;
    }

    /** The idle thread: the first thread slot. */
    method IdleThread() returns (t: Thread)
      requires sched.Valid() && sched.queue == [] && |sched.threads| > 0 && sched.Abs().tcbs[0] == NO_THREAD
      requires forall i :: 0 <= i < |sched.threads| ==> sched.threads[i].state.Ready?
      modifies this`nextTid, sched.threads
      ensures sched.Valid() && sched.Entry(t) && t.slot == 0 && t.tid == old(nextTid) && t.place < 0 && sched.queue == []
      ensures nextTid == old(nextTid) + 1
      ensures sched.Abs() == var s := old(sched.Abs()); s.(tcbs := s.tcbs[0 := Tcb(old(nextTid), 0, Ready, false, 0, 0, 0)])
    {
      ghost var s := sched.Abs();
      NoQueue();
      assert s.tcbs[0] == sched.threads[0].Record() && ThreadSlot(s.tcbs) == 0;
      t := AllocThread();
      assert sched.Abs().tcbs[0] == t.Record();
    }

    lemma NoQueue()
      requires sched.Valid() && sched.queue == []
      ensures forall t :: t in sched.threads ==> t.place < 0
    {
      forall t | t in sched.threads ensures t.place < 0 {
        var i: nat :| i < |sched.threads| && sched.threads[i] == t;
        assert sched.PlaceAt(i);
      }
    }

    /** The slots of the idle process and its thread. */
    method IdleSlots() returns (t: Thread)
      requires sched.Valid() && sched.queue == [] && |sched.threads| > 0 && sched.procs.Length > 0
      modifies this, sched.threads, sched.procs
      ensures sched.Valid() && sched.Entry(t) && t.slot == 0 && t.tid == old(nextTid) && t.place < 0 && sched.queue == []
      ensures nextPid == 1 && nextTid == old(nextTid) + 1
      ensures sched.Abs() == var c := Cleared(old(sched.Abs()));
        c.(tcbs := c.tcbs[0 := Tcb(old(nextTid), 0, Ready, false, 0, 0, 0)], procs := c.procs[0 := Pcb(true, 0, vmm.kernelDir)])
    {
      IdleHome();
      assert forall i :: 0 <= i < |sched.threads| ==> sched.threads[i].Record() == sched.Abs().tcbs[i] == NO_THREAD;
      t := IdleThread();
    }

    /** The idle thread's stack and fields; it becomes the running thread. */
    method StartIdle(t: Thread, kernelIdle: Word) returns (ghost top: Word, ghost saved: Word)
      requires sched.Valid() && sched.Entry(t) && t.place < 0 && sched.queue == []
      requires Disjoint() && vmm.Valid() && AddressSpaces.HasFrame(vmm.pmm.Abs())
      modifies sched, sched.threads, vmm.ram, vmm.pmm`used, vmm.pmm.bitmap
      ensures sched.Valid() && sched.queue == [] && sched.running == t && t.place < 0 && t.slot < |old(sched.Abs()).tcbs|
      ensures vmm.Valid() && StackMade(old(vmm.Abs()), vmm.Abs(), false, kernelIdle, 0, top, saved)
      ensures sched.Abs() == var s := old(sched.Abs());
        s.(tcbs := s.tcbs[t.slot := Tcb(old(t.tid), 0, Ready, false, top, saved, 1)], running := Some(t.slot))
    {
      var stackTop, context := NewStack(false, kernelIdle, 0);
      top, saved := stackTop, context;
      label Stacked:
      Fill(t, 0, false, 1, stackTop, context);
      SetRunning(t);
      assert unchanged@Stacked(vmm) && unchanged@Stacked(vmm.ram) && unchanged@Stacked(vmm.pmm) && unchanged@Stacked(vmm.pmm.bitmap);
    }

    /** proc_init */
    method Init(kernelIdle: Word) returns (ghost top: Word, ghost saved: Word)
      requires sched.Valid() && sched.queue == [] && |sched.threads| > 0 && sched.procs.Length > 0
      requires Disjoint() && vmm.Valid() && AddressSpaces.HasFrame(vmm.pmm.Abs())
      modifies this, sched, sched.threads, sched.procs, vmm.ram, vmm.pmm`used, vmm.pmm.bitmap
      ensures sched.Valid() && sched.queue == [] && nextPid == 1 && nextTid == old(nextTid) + 1
      ensures sched.running != null && sched.running.place < 0
      ensures vmm.Valid() && StackMade(old(vmm.Abs()), vmm.Abs(), false, kernelIdle, 0, top, saved)
      ensures sched.Abs() == AfterInit(old(sched.Abs()), old(nextTid), top, saved, vmm.kernelDir)
    {
      ghost var s, tid := sched.Abs(), nextTid;
      var t := IdleSlots();
      assert unchanged(vmm) && unchanged(vmm.ram) && unchanged(vmm.pmm) && unchanged(vmm.pmm.bitmap);
      top, saved := StartIdle(t, kernelIdle);
      SetTwice(Cleared(s).tcbs, 0, Tcb(tid, 0, Ready, false, 0, 0, 0), Tcb(tid, 0, Ready, false, top, saved, 1));
    }

    /** g_current_thread = t */
    method SetRunning(t: Thread)
      requires sched.Valid() && sched.Entry(t)
      modifies sched`running
      ensures sched.Valid() && sched.running == t && sched.Abs() == old(sched.Abs()).(running := Some(t.slot))
    {
      sched.running := t;
      forall i: nat | i < |sched.threads| ensures sched.PlaceAt(i) {
        assert old(sched.PlaceAt(i));
      }
      forall i: nat | i < |sched.queue| ensures sched.LinkAt(i) {
        assert old(sched.LinkAt(i));
      }
    }

    method SetEsp0(top: Word)
      requires sched.Valid()
      modifies sched`esp0
      ensures sched.Valid() && sched.Abs() == old(sched.Abs()).(esp0 := top)
    {
      sched.esp0 := top;
      forall i: nat | i < |sched.threads| ensures sched.PlaceAt(i) {
        assert old(sched.PlaceAt(i));
      }
      forall i: nat | i < |sched.queue| ensures sched.LinkAt(i) {
        assert old(sched.LinkAt(i));
      }
    }

    /** scheduler_init: the idle thread, which is running, joins whatever is queued already. */
    method StartScheduler()
      requires sched.Valid() && sched.running != null && sched.running.place < 0
      requires sched.esp0 == sched.running.stackTop
      modifies sched, sched.threads
      ensures sched.Valid() && old(sched.running.slot) < |old(sched.Abs()).tcbs|
      ensures sched.Abs() == Started(old(sched.Abs()), old(sched.running.slot))
    {
      ghost var s := sched.Abs();
      assert s.tcbs[sched.running.slot] == sched.running.Record();
      sched.Init();
    }

    /** proc_init, and the idle thread's stack in the TSS. Processes may then be created before
        StartScheduler. */
    method Boot(kernelIdle: Word) returns (ghost top: Word, ghost saved: Word)
      requires sched.Valid() && sched.queue == [] && |sched.threads| > 0 && sched.procs.Length > 0
      requires Disjoint() && vmm.Valid() && AddressSpaces.HasFrame(vmm.pmm.Abs())
      modifies this, sched, sched.threads, sched.procs, vmm.ram, vmm.pmm`used, vmm.pmm.bitmap
      ensures sched.Valid() && sched.running != null && sched.running.place < 0 && sched.esp0 == sched.running.stackTop
      ensures vmm.Valid() && nextPid == 1 && nextTid == old(nextTid) + 1
      ensures StackMade(old(vmm.Abs()), vmm.Abs(), false, kernelIdle, 0, top, saved)
      ensures sched.Abs() == AfterInit(old(sched.Abs()), old(nextTid), top, saved, old(vmm.kernelDir)).(esp0 := top)
    {
      top, saved := Init(kernelIdle);
      assert sched.Abs().tcbs[sched.running.slot] == sched.running.Record();
      label Prepared:
      SetEsp0(sched.running.stackTop);
      assert unchanged@Prepared(vmm) && unchanged@Prepared(vmm.ram) && unchanged@Prepared(vmm.pmm) && unchanged@Prepared(vmm.pmm.bitmap);
    }
  }

  /** The scheduler with both tables cleared. */
  function Cleared(s: Sched): Sched {
    s.(tcbs := seq(|s.tcbs|, _ => NO_THREAD), procs := seq(|s.procs|, _ => NO_PROCESS))
  }

  /** The scheduler as proc_init leaves it. */
  function AfterInit(s: Sched, tid: nat, top: Word, saved: Word, pageDir: Word): Sched
    requires |s.tcbs| > 0 && |s.procs| > 0
  {
    var c := Cleared(s);
    c.(tcbs := c.tcbs[0 := Tcb(tid, 0, Ready, false, top, saved, 1)],
       procs := c.procs[0 := Pcb(true, 0, pageDir)], running := Some(0))
  }

  /** The idle thread in slot i has joined the queue and is the current thread. */
  function Started(s: Sched, i: nat): Sched
    requires i < |s.tcbs|
  {
    s.(tcbs := s.tcbs[i := s.tcbs[i].(state := Running, quantum := 10)],
       queue := s.queue + [i], current := Some(i))
  }

  /** A frame for a kernel stack is aligned and in RAM. */
  lemma StackFrame(v: Paging.Vm, p: Pmm.Pmm, kstack: Word)
    requires AddressSpaces.Roomy(v) && AddressSpaces.HasFrame(v.pmm) && (p, kstack) == Pmm.Alloc(v.pmm)
    ensures AddressSpaces.Roomy(v.(pmm := p)) && kstack % 4 == 0 && kstack + PAGE_SIZE < TWO_TO_THE_32
    ensures (kstack + PAGE_SIZE) / 4 <= Paging.RAM_PAGES * Paging.ENTRIES
  {
    Paging.NextIsFresh(v, Paging.Owners({}, map[]), p, Paging.Page(kstack));
  }

  /** What proc_create_kernel comes to: a process and a queued ready thread with a new stack and its first
      frame, or no process, and at most a slot given up. */
  ghost predicate KernelOutcome(s: Sched, s': Sched, v: Paging.Vm, v': Paging.Vm, p: Option<nat>, pid: nat, pid': nat, tid: nat, tid': nat,
                                entry: Word, top: Word, saved: Word)
  {
    var i := FreeProc(s.procs, 0);
    && pid' == (if i < |s.procs| then pid + 1 else pid)
    && if HasSlots(s) then
         && p == Some(i) && tid' == tid + 1 && StackMade(v, v', false, entry, 0, top, saved)
         && s' == Spawned(s, Tcb(tid, pid, Ready, false, top, saved, 5), Pcb(true, pid, v.kernelDir))
       else
         && p == None && tid' == tid && v' == v
         && s' == if i < |s.procs| then s.(procs := s.procs[i := Pcb(false, pid, v.kernelDir)]) else s
  }

  const NO_THREAD := Tcb(0, 0, Ready, false, 0, 0, 0)
  const NO_PROCESS := Pcb(false, 0, 0)

  lemma SetTwice<T>(q: seq<T>, i: nat, x: T, y: T)
    requires i < |q|
    ensures q[i := x][i := y] == q[i := y]
  {
  }

  /** A frame is taken for a kernel stack and its top words are a first frame; nothing else changes. */
  predicate StackMade(v: Paging.Vm, v': Paging.Vm, user: bool, entry: Word, userEsp: Word, top: Word, saved: Word) {
    && |v.pmm.bits| == Pmm.MAX_FRAMES && v'.kernelDir == v.kernelDir
    && (v'.pmm, top - PAGE_SIZE) == Pmm.Alloc(v.pmm)
    && saved == top - 4 * FrameSize(user) && saved % 4 == 0 && saved / 4 + FrameSize(user) <= |v.mem|
    && v'.mem == Splice(v.mem, saved / 4, StartFrame(user, entry, userEsp))
  }
}
