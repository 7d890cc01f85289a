/**
 The timer interrupt as the processor and the assembly stub carry it out, one push and one pop at a
 time on the stack of the interrupted thread, proved equal to Machine.Irq0.
 */
module Cpu {
  import opened Basics
  import opened SchedulerSpec
  import opened Frames
  import opened Machine
  import opened Scheduler

  class Processor {
    var regs: Regs
    const ram: array<Word>
    const sched: Dispatcher

    constructor (regs: Regs, ram: array<Word>, sched: Dispatcher)
      ensures this.regs == regs && this.ram == ram && this.sched == sched
    {
      this.regs, this.ram, this.sched := regs, ram, sched;
    }

    /** The stack pointer as a word index. */
    ghost function Top(): nat
      reads this
    {
      regs.esp / 4
    }

    /** A push keeps everything but the new top word; base is any word above the stack pointer. */
    method Push(w: Word, ghost base: nat)
      requires regs.esp % 4 == 0 && 4 <= regs.esp && Top() <= base <= ram.Length
      modifies this, ram
      ensures regs == old(regs).(esp := old(regs.esp) - 4)
      ensures ram[Top()..base] == [w] + old(ram[Top()..base])
      ensures forall i :: 0 <= i < ram.Length && i != Top() ==> ram[i] == old(ram[i])
    {
      regs := regs.(esp := regs.esp - 4);
      ram[regs.esp / 4] := w;
    }

    method Pop() returns (w: Word)
      requires regs.esp % 4 == 0 && regs.esp / 4 < ram.Length && regs.esp + 4 < TWO_TO_THE_32
      modifies this
      ensures w == ram[old(Top())] && regs == old(regs).(esp := old(regs.esp) + 4)
    {
      w := ram[regs.esp / 4];
      regs := regs.(esp := regs.esp + 4);
    }

    /** What the processor does on its own: switch to the kernel stack when it comes from Ring 3, and
        push the interrupted context. */
    method EnterInterrupt()
      requires var top := EntryTop(regs, sched.esp0);
        19 <= top <= ram.Length && (if UserMode(regs.cs) then sched.esp0 % 4 == 0 else regs.esp % 4 == 0)
      modifies this, ram
      ensures var top := old(EntryTop(regs, sched.esp0)); var user := UserMode(old(regs.cs));
        && regs == old(regs).(esp := 4 * (top - (if user then 5 else 3)),
                              ss := if user then KERNEL_DATA else old(regs.ss))
        && ram[Top()..top] == [old(regs.eip), old(regs.cs), old(regs.eflags)] +
                              (if user then [old(regs.esp), old(regs.ss)] else [])
        && forall i :: 0 <= i < ram.Length && !(Top() <= i < top) ==> ram[i] == old(ram[i])
    {
      ghost var top := EntryTop(regs, sched.esp0);
      var r := regs;
      if UserMode(regs.cs) {
        regs := regs.(esp := sched.esp0, ss := KERNEL_DATA);
        Push(r.ss, top);
        Push(r.esp, top);
      }
      Push(r.eflags, top);
      Push(r.cs, top);
      Push(r.eip, top);
    }

    method Push4(w1: Word, w2: Word, w3: Word, w4: Word, ghost base: nat)
      requires regs.esp % 4 == 0 && 16 <= regs.esp && Top() <= base <= ram.Length
      modifies this, ram
      ensures regs == old(regs).(esp := old(regs.esp) - 16)
      ensures ram[Top()..base] == [w4, w3, w2, w1] + old(ram[Top()..base])
      ensures forall i :: 0 <= i < ram.Length && !(Top() <= i < old(Top())) ==> ram[i] == old(ram[i])
    {
      Push(w1, base);
      Push(w2, base);
      Push(w3, base);
      Push(w4, base);
    }

    /** PUSHA, which pushes the stack pointer it started with. */
    method Pusha(ghost base: nat)
      requires regs.esp % 4 == 0 && 32 <= regs.esp && Top() <= base <= ram.Length
      modifies this, ram
      ensures regs == old(regs).(esp := old(regs.esp) - 32)
      ensures var r := old(regs);
        ram[Top()..base] == [r.edi, r.esi, r.ebp, r.esp, r.ebx, r.edx, r.ecx, r.eax] + old(ram[Top()..base])
      ensures forall i :: 0 <= i < ram.Length && !(Top() <= i < old(Top())) ==> ram[i] == old(ram[i])
    {
      var esp := regs.esp;
      Push4(regs.eax, regs.ecx, regs.edx, regs.ebx, base);
      Push4(esp, regs.ebp, regs.esi, regs.edi, base);
    }

    /** PUSHA and the four segment registers. */
    method PushRegisters(ghost base: nat)
      requires regs.esp % 4 == 0 && 48 <= regs.esp && Top() <= base <= ram.Length
      modifies this, ram
      ensures regs == old(regs).(esp := old(regs.esp) - 48)
      ensures var r := old(regs);
        ram[Top()..base] == [r.ds, r.es, r.fs, r.gs, r.edi, r.esi, r.ebp, r.esp, r.ebx, r.edx, r.ecx, r.eax] + old(ram[Top()..base])
      ensures forall i :: 0 <= i < ram.Length && !(Top() <= i < old(Top())) ==> ram[i] == old(ram[i])
    {
      Pusha(base);
      Push4(regs.gs, regs.fs, regs.es, regs.ds, base);
    }

    /** The processor's words, the dummy error code and the vector. */
    method EnterStub()
      requires var top := EntryTop(regs, sched.esp0);
        ROOM <= top <= ram.Length && 4 * ram.Length < TWO_TO_THE_32
        && (if UserMode(regs.cs) then sched.esp0 % 4 == 0 else regs.esp % 4 == 0)
      modifies this, ram
      ensures var top := old(EntryTop(regs, sched.esp0)); var user := UserMode(old(regs.cs)); var r := old(regs);
        && regs == r.(esp := 4 * (top - (if user then 7 else 5)), ss := if user then KERNEL_DATA else r.ss)
        && ram[Top()..top] == [TIMER_VECTOR, 0, r.eip, r.cs, r.eflags] + (if user then [r.esp, r.ss] else [])
        && forall i :: 0 <= i < ram.Length && !(Top() <= i < top) ==> ram[i] == old(ram[i])
    {
      ghost var top := EntryTop(regs, sched.esp0);
      EnterInterrupt();
      Push(0, top);
      Push(TIMER_VECTOR, top);
    }

    /** Everything the interrupted thread's stack receives before the call: the processor's words,
        the dummy error code and vector, PUSHA and the segments; then the segments are reloaded. */
    method SaveContext()
      requires var top := EntryTop(regs, sched.esp0);
        ROOM <= top <= ram.Length && 4 * ram.Length < TWO_TO_THE_32
        && (if UserMode(regs.cs) then sched.esp0 % 4 == 0 else regs.esp % 4 == 0)
      modifies this, ram
      ensures var top := old(EntryTop(regs, sched.esp0)); var f := SavedFrame(old(regs), top);
        && regs.esp == 4 * (top - |f|) && ram[top - |f|..top] == f
        && forall i :: 0 <= i < ram.Length && !(top - |f| <= i < top) ==> ram[i] == old(ram[i])
      ensures regs.ss == if UserMode(old(regs.cs)) then KERNEL_DATA else old(regs.ss)
    {
      ghost var top, r := EntryTop(regs, sched.esp0), regs;
      EnterStub();
      FrameLayout(r, TIMER_VECTOR, regs.esp);
      PushRegisters(top);
      regs := regs.(ds := KERNEL_DATA, es := KERNEL_DATA, fs := KERNEL_DATA, gs := KERNEL_DATA);
    }

    method PopSegments()
      requires regs.esp % 4 == 0 && Top() + 4 <= ram.Length && regs.esp + 16 < TWO_TO_THE_32
      modifies this
      ensures var a := old(Top());
        regs == old(regs).(esp := old(regs.esp) + 16, ds := ram[a] % 0x1_0000, es := ram[a + 1] % 0x1_0000,
                           fs := ram[a + 2] % 0x1_0000, gs := ram[a + 3] % 0x1_0000)
    {
      var ds := Pop();
      var es := Pop();
      var fs := Pop();
      var gs := Pop();
      regs := regs.(ds := ds % 0x1_0000, es := es % 0x1_0000, fs := fs % 0x1_0000, gs := gs % 0x1_0000);
    }

    /** POPA, which discards the stack pointer it pops. */
    method Popa()
      requires regs.esp % 4 == 0 && Top() + 8 <= ram.Length && regs.esp + 32 < TWO_TO_THE_32
      modifies this
      ensures var a := old(Top());
        regs == old(regs).(esp := old(regs.esp) + 32, edi := ram[a], esi := ram[a + 1], ebp := ram[a + 2],
                           ebx := ram[a + 4], edx := ram[a + 5], ecx := ram[a + 6], eax := ram[a + 7])
    {
      var edi := Pop();
      var esi := Pop();
      var ebp := Pop();
      var dummy := Pop();
      var ebx := Pop();
      var edx := Pop();
      var ecx := Pop();
      var eax := Pop();
      regs := regs.(edi := edi, esi := esi, ebp := ebp, ebx := ebx, edx := edx, ecx := ecx, eax := eax);
    }

    /** IRET: three words, and two more when it returns to Ring 3. */
    method Iret()
      requires regs.esp % 4 == 0 && Top() + 3 <= ram.Length && regs.esp + 12 < TWO_TO_THE_32
      requires UserMode(ram[Top() + 1] % 0x1_0000) ==> Top() + 5 <= ram.Length && regs.esp + 20 < TWO_TO_THE_32
      modifies this
      ensures var a := old(Top()); var cs := ram[a + 1] % 0x1_0000; var user := UserMode(cs);
        regs == old(regs).(eip := ram[a], cs := cs, eflags := ram[a + 2],
                           esp := if user then ram[a + 3] else old(regs.esp) + 12,
                           ss := if user then ram[a + 4] % 0x1_0000 else old(regs.ss))
    {
      var eip := Pop();
      var cs := Pop();
      var eflags := Pop();
      regs := regs.(eip := eip, cs := cs % 0x1_0000, eflags := eflags);
      if UserMode(regs.cs) {
        var esp := Pop();
        var ss := Pop();
        regs := regs.(esp := esp, ss := ss % 0x1_0000);
      }
    }

    /** The stub from the load of the stack pointer on. */
    method RestoreContext()
      requires 4 * ram.Length < TWO_TO_THE_32 && regs.esp % 4 == 0 && HoldsFrame(ram[..], regs.esp / 4)
      modifies this
      ensures regs == Restore(ram[..], old(regs.esp) / 4, old(regs.ss))
    {
      ghost var a, mem, r := Top(), ram[..], regs;
      PopSegments();
      Popa();
      regs := regs.(esp := regs.esp + 8);
      Iret();
      RestoreLayout(mem, a, r.ss);
    }

    /** The context and the call: the argument, the return address, and then, while scheduler_tick runs, the
        words below the frame that its code uses, which it leaves as below says. */
    method PushAll(ret: Word, below: Scratch) returns (ctx: Word)
      requires var top := EntryTop(regs, sched.esp0);
        ROOM <= top <= ram.Length && 4 * ram.Length < TWO_TO_THE_32
        && (if UserMode(regs.cs) then sched.esp0 % 4 == 0 else regs.esp % 4 == 0)
      requires |below| >= 2
      modifies this, ram
      ensures var top := old(EntryTop(regs, sched.esp0)); ram[..] == PushedMemory(old(ram[..]), old(regs), top, below)
      ensures ctx == old(FrameAt(regs, sched.esp0))
      ensures regs.ss == if UserMode(old(regs.cs)) then KERNEL_DATA else old(regs.ss)
    {
      ghost var top, r, mem := EntryTop(regs, sched.esp0), regs, ram[..];
      SaveContext();
      ctx := regs.esp;
      ghost var f := SavedFrame(r, top);
      Push(ctx, Top());
      Push(ret, Top());
      UseStack(ctx / 4, below);
      PushedIs(mem, ram[..], r, top, below, f);
    }

    /** What compiled code does to the words below frame. */
    method UseStack(frame: nat, below: seq<Word>)
      requires |below| <= frame <= ram.Length
      modifies ram
      ensures forall i :: 0 <= i < ram.Length ==>
        ram[i] == if frame - |below| <= i < frame then below[i - (frame - |below|)] else old(ram[i])
    {
      for k := 0 to |below|
        invariant forall i :: 0 <= i < ram.Length ==>
          ram[i] == if frame - |below| <= i < frame - |below| + k then below[i - (frame - |below|)] else old(ram[i])
      {
        ram[frame - |below| + k] := below[k];
      }
    }

    /** The state of the whole machine. */
    ghost function Now(stacks: map<nat, Stack>): Machine
      reads this, ram, sched, sched.threads, sched.procs
    {
      Machine(regs, ram[..], sched.Abs(), stacks)
    }

    /** The handler up to the scheduler's answer; m is the state it starts in. */
    method CallScheduler(ret: Word, below: Scratch, ghost m: Machine) returns (next: Word)
      requires |below| >= 2
      requires sched.Valid() && ram as object != sched.procs && Now(m.stacks) == m && RoomToTrap(m)
      modifies this, ram, sched, sched.threads
      ensures sched.Valid() && WellFormed(m.sched) && 0 <= FrameAt(m.regs, m.sched.esp0) < TWO_TO_THE_32
      ensures ram[..] == PushedMemory(m.mem, m.regs, EntryTop(m.regs, m.sched.esp0), below)
      ensures (sched.Abs(), next) == SchedulerSpec.Tick(m.sched, FrameAt(m.regs, m.sched.esp0))
      ensures regs.ss == if UserMode(m.regs.cs) then KERNEL_DATA else m.regs.ss
    {
      var ctx := PushAll(ret, below);
      assert sched.Abs() == m.sched && ctx == FrameAt(m.regs, m.sched.esp0);
      next := sched.Tick(ctx);
    }

    /** The whole handler. ret is the return address its call pushes, below what that call leaves under the
        frame, ret and the argument included; m is the state it starts in. */
    method Irq0TimerHandler(ret: Word, below: Scratch, ghost idle: nat, ghost m: Machine)
      requires |below| >= 2
      requires sched.Valid() && ram as object != sched.procs && Now(m.stacks) == m && Trappable(m, idle)
      modifies this, ram, sched, sched.threads
      ensures sched.Valid() && Now(m.stacks) == Handled(m, idle, below)
    {
      EntryAligned(m, idle);
      var next := CallScheduler(ret, below, m);
      ghost var mem, s, ss := ram[..], sched.Abs(), regs.ss;
      ResumesAligned(m, idle, below, mem, s, next);
      Resume(next, mem);
      assert sched.Abs() == s && ram[..] == mem;
      assert Now(m.stacks) == Machine(regs, mem, s, m.stacks);
    }

    /** The handler from the scheduler's answer on. */
    method Resume(next: Word, ghost mem: Memory)
      requires 4 * ram.Length < TWO_TO_THE_32 && next % 4 == 0 && ram[..] == mem && HoldsFrame(mem, next / 4)
      modifies this
      ensures regs == Restore(mem, next / 4, old(regs.ss))
    {
      regs := regs.(eax := next, esp := next);
      RestoreContext();
    }
  }

  /** Where the handler's pushes go is in memory and aligned. */
  predicate RoomToTrap(m: Machine) {
    && ROOM <= EntryTop(m.regs, m.sched.esp0) <= |m.mem| && 4 * |m.mem| < TWO_TO_THE_32
    && if UserMode(m.regs.cs) then m.sched.esp0 % 4 == 0 else m.regs.esp % 4 == 0
  }

  /** The words as they are pushed, group by group, are the frame. */
  lemma FrameLayout(r: Regs, vector: Word, esp: Word)
    ensures [r.ds, r.es, r.fs, r.gs, r.edi, r.esi, r.ebp, esp, r.ebx, r.edx, r.ecx, r.eax] +
            ([vector, 0, r.eip, r.cs, r.eflags] + (if UserMode(r.cs) then [r.esp, r.ss] else []))
            == FrameWords(r, vector, esp)
  {
  }

  lemma RestoreLayout(mem: Memory, a: nat, ss: Selector)
    requires HoldsFrame(mem, a) && 4 * |mem| < TWO_TO_THE_32
    ensures var r := Restore(mem, a, ss); var user := UserMode(SavedCs(mem, a));
      && r.ds == mem[a] % 0x1_0000 && r.es == mem[a + 1] % 0x1_0000
      && r.fs == mem[a + 2] % 0x1_0000 && r.gs == mem[a + 3] % 0x1_0000
      && r.edi == mem[a + 4] && r.esi == mem[a + 5] && r.ebp == mem[a + 6]
      && r.ebx == mem[a + 8] && r.edx == mem[a + 9] && r.ecx == mem[a + 10] && r.eax == mem[a + 11]
      && r.eip == mem[a + 14] && r.cs == mem[a + 15] % 0x1_0000 && r.eflags == mem[a + 16]
      && r.esp == (if user then mem[a + 17] else 4 * (a + 17))
      && r.ss == (if user then mem[a + 18] % 0x1_0000 else ss)
  {
  }

  lemma EntryAligned(m: Machine, idle: nat)
    requires Trappable(m, idle)
    ensures RoomToTrap(m)
  {
    assert ThreadAt(m, m.sched.current.value);
    EntryInStack(m);
  }

  /** The context the scheduler answers with is aligned and is a frame, and resuming from it is what
      the machine does. */
  lemma ResumesAligned(m: Machine, idle: nat, below: Scratch, mem: Memory, s: Sched, next: Word)
    requires Trappable(m, idle) && RoomToTrap(m) && 0 <= FrameAt(m.regs, m.sched.esp0) < TWO_TO_THE_32
    requires mem == PushedMemory(m.mem, m.regs, EntryTop(m.regs, m.sched.esp0), below)
    requires (s, next) == SchedulerSpec.Tick(m.sched, FrameAt(m.regs, m.sched.esp0))
    ensures next % 4 == 0 && HoldsFrame(mem, next / 4)
    ensures var ss := if UserMode(m.regs.cs) then KERNEL_DATA else m.regs.ss;
      Handled(m, idle, below) == Machine(Restore(mem, next / 4, ss), mem, s, m.stacks)
  {
    InterruptKeepsViews(m, idle, below);
    var ctx := FrameAt(m.regs, m.sched.esp0);
    TickOutcome(m.sched, idle, ctx);
    assert s.current != m.sched.current ==> ThreadAt(m, s.current.value);
  }

  lemma PushedIs(mem: Memory, mem': Memory, r: Regs, top: nat, below: Scratch, f: seq<Word>)
    requires ROOM <= top <= |mem| == |mem'| && 4 * |mem| < TWO_TO_THE_32 && f == SavedFrame(r, top)
    requires mem'[top - |f|..top] == f
    requires forall i :: top - |f| - |below| <= i < top - |f| ==> mem'[i] == below[i - (top - |f| - |below|)]
    requires forall i :: 0 <= i < |mem| && !(top - |f| - |below| <= i < top) ==> mem'[i] == mem[i]
    ensures mem' == PushedMemory(mem, r, top, below)
  {
    var a := top - |f| - |below|;
    forall i | 0 <= i < |below + f| ensures mem'[a..top][i] == (below + f)[i] {
      assert i >= |below| ==> mem'[top - |f|..top][i - |below|] == mem'[a + i];
    }
    SplicedIs(mem, mem', a, below + f);
  }

  /** Memory that has words f at a and is otherwise as before. */
  lemma SplicedIs(mem: Memory, mem': Memory, a: nat, f: seq<Word>)
    requires a + |f| <= |mem| == |mem'| && mem'[a..a + |f|] == f
    requires forall i :: 0 <= i < |mem| && !(a <= i < a + |f|) ==> mem'[i] == mem[i]
    ensures mem' == Splice(mem, a, f)
  {
    forall i | a <= i < a + |f| ensures mem'[i] == f[i - a] {
      assert mem'[a..a + |f|][i - a] == mem'[i];
    }
  }
}
