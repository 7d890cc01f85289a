/** Runs of the whole machine: interrupts, yields, exits and thread creation, interleaved with
    arbitrary work of whichever thread has the processor. */
module Runs {
  import opened Basics
  import opened SchedulerSpec
  import opened Frames
  import opened Machine
  import opened Liveness

  /** Work stands for any instructions of the running thread: new registers and new memory.  below
      is what the handler's call leaves under the frame. */
  datatype Event =
    | Interrupt(below: Scratch)
    | Trap(below: Scratch)
    | Work(regs: Regs, mem: Memory)
    | ExitThread
    | Create(slot: nat, tcb: Tcb, entry: nat, pcb: Pcb, stack: Stack, start: Word, userEsp: Word)
    | Detach(thread: nat)
    | Refuse(entry: nat, pcb: Pcb)

  function StartMemory(mem: Memory, k: Stack, user: bool, start: Word, userEsp: Word): Memory
    requires k.lo + ROOM <= k.hi <= |mem|
  {
    Splice(mem, k.hi - FrameSize(user), StartFrame(user, start, userEsp))
  }

  /** The step the scheduler takes in an event. */
  function Projection(m: Machine, e: Event): Step
    requires Interruptible(m)
  {
    match e
    case Interrupt(_) => TimerTick(FrameAt(m.regs, m.sched.esp0))
    case Trap(_) => SchedulerSpec.Yield(FrameAt(m.regs, m.sched.esp0))
    case Work(_, _) => Stutter
    case ExitThread => Exit
    case Create(i, t, p, pcb, _, _, _) => Spawn(i, t, p, pcb)
    case Detach(i) => Remove(i)
    case Refuse(p, pcb) => GiveUp(p, pcb)
  }

  /** Memory, registers and stacks of an event that is not an interrupt. */
  predicate Computes(m: Machine, e: Event, m': Machine)
    requires m.sched.current.Some? && m.sched.current.value in m.stacks
    requires m.sched.current.value < |m.sched.tcbs|
  {
    var c := m.sched.current.value;
    match e
    case Work(r, mem) =>
      // the thread may change anything but the kernel stacks of the others
      && m'.regs == r && m'.mem == mem && m'.stacks == m.stacks
      && |mem| == |m.mem| && RunsWell(r, m.sched.tcbs[c], m.stacks[c])
      && forall i {:trigger Agrees(m.mem, mem, m.stacks[i])} ::
           i in m.stacks && i != c ==> Agrees(m.mem, mem, m.stacks[i])
    case Create(i, t, p, pcb, k, start, userEsp) =>
      && k.lo + ROOM <= k.hi <= |m.mem|
      && (forall j {:trigger Apart(k, m.stacks[j])} :: j in m.stacks ==> Apart(k, m.stacks[j]))
      && t.stackTop == 4 * k.hi && t.saved == 4 * (k.hi - FrameSize(t.user))
      && m'.regs == m.regs && m'.stacks == m.stacks[i := k]
      && m'.mem == StartMemory(m.mem, k, t.user, start, userEsp)
    case _ => m'.regs == m.regs && m'.mem == m.mem && m'.stacks == m.stacks
  }

  /** The machine goes from m to m' in event e. */
  predicate Next(m: Machine, idle: nat, e: Event, m': Machine) {
    && WellFormed(m.sched) && Interruptible(m)
    && Enabled(m.sched, idle, Projection(m, e))
    && m'.sched == Apply(m.sched, idle, Projection(m, e))
    && match e
       case Interrupt(below) =>
         && HoldsFrame(Trapped(m, below), Tick(m.sched, FrameAt(m.regs, m.sched.esp0)).1 / 4)
         && m' == Irq0(m, below)
       case Trap(below) =>
         // int 0x20 is issued from Ring 0, with the quantum cleared
         var y := m.(sched := ClearQuantum(m.sched));
         && !UserMode(m.regs.cs) && Interruptible(y)
         && HoldsFrame(Trapped(y, below), Tick(y.sched, FrameAt(y.regs, y.sched.esp0)).1 / 4)
         && m' == Irq0(y, below)
       case _ => Computes(m, e, m')
  }

  /** What one event keeps: the invariant, and the view of every thread but a working one. */
  predicate Keeps(m: Machine, idle: nat, e: Event, m': Machine) {
    && Sound(m', idle)
    && |m'.mem| == |m.mem|
    && (forall i {:trigger SameView(m, m', i)} ::
         i in m.stacks && !(e.Work? && Runs(m, i)) ==> SameView(m, m', i))
    && (forall i :: i in m.stacks ==> i in m'.stacks && m'.stacks[i] == m.stacks[i])
  }

  lemma EventSound(m: Machine, idle: nat, e: Event, m': Machine)
    requires Sound(m, idle) && Next(m, idle, e, m')
    ensures Coherent(m'.sched, idle)
  {
    StepCoherent(m.sched, idle, Projection(m, e));
  }

  lemma TrapSuspends(m: Machine, idle: nat)
    requires Sound(m, idle)
    ensures var y := m.(sched := ClearQuantum(m.sched));
      && Core(y.sched, idle) && Placed(y) && y.sched.tcbs[y.sched.current.value].quantum == 0
      && SameViews(m, y)
  {
    ClearQuantumCore(m.sched, idle);
    var y := m.(sched := ClearQuantum(m.sched));
    forall i | i in m.stacks ensures SameView(m, y, i) && ThreadAt(y, i) {
      assert ThreadAt(m, i);
      SeenElsewhere(m.mem, m.mem, m.regs, m.regs, Runs(m, i), m.sched.tcbs[i], y.sched.tcbs[i], m.stacks[i]);
    }
  }

  lemma InterruptKeeps(m: Machine, idle: nat, e: Event, m': Machine)
    requires Sound(m, idle) && Next(m, idle, e, m') && e.Interrupt?
    ensures Keeps(m, idle, e, m')
  {
    InterruptKeepsViews(m, idle, e.below);
  }

  lemma TrapKeeps(m: Machine, idle: nat, e: Event, m': Machine)
    requires Sound(m, idle) && Next(m, idle, e, m') && e.Trap?
    ensures Keeps(m, idle, e, m')
  {
    var y := m.(sched := ClearQuantum(m.sched));
    TrapSuspends(m, idle);
    InterruptKeepsViews(y, idle, e.below);
    forall i | i in m.stacks ensures SameView(m, m', i) {
      assert SameView(m, y, i) && SameView(y, m', i);
    }
  }

  /** An event that leaves a thread's saved context and its stack alone leaves its view alone. */
  lemma ViewElsewhere(m: Machine, m': Machine, i: nat)
    requires Placed(m) && i in m.stacks && i in m'.stacks && m'.stacks[i] == m.stacks[i]
    requires i < |m'.sched.tcbs| == |m.sched.tcbs| && m'.sched.current == m.sched.current
    requires SameThread(m.sched.tcbs[i], m'.sched.tcbs[i]) && m'.sched.tcbs[i].saved == m.sched.tcbs[i].saved
    requires Agrees(m.mem, m'.mem, m.stacks[i]) && (Runs(m, i) ==> m'.regs == m.regs)
    ensures SameView(m, m', i)
  {
    assert ThreadAt(m, i);
    SeenElsewhere(m.mem, m'.mem, m.regs, m'.regs, Runs(m, i), m.sched.tcbs[i], m'.sched.tcbs[i], m.stacks[i]);
  }

  lemma WorkKeeps(m: Machine, idle: nat, e: Event, m': Machine)
    requires Sound(m, idle) && Next(m, idle, e, m') && e.Work?
    ensures Keeps(m, idle, e, m')
  {
    EventSound(m, idle, e, m');
    forall i | i in m.stacks && !Runs(m, i) ensures SameView(m, m', i) {
      assert ThreadAt(m, i) && Agrees(m.mem, m'.mem, m.stacks[i]);
      ViewElsewhere(m, m', i);
    }
    forall i | i in m'.stacks ensures ThreadAt(m', i) {
      assert if Runs(m, i) then ThreadAt(m, i) else SameView(m, m', i);
    }
  }

  lemma BookkeepingKeeps(m: Machine, idle: nat, e: Event, m': Machine)
    requires Sound(m, idle) && Next(m, idle, e, m') && (e.ExitThread? || e.Detach? || e.Refuse?)
    ensures Keeps(m, idle, e, m')
  {
    EventSound(m, idle, e, m');
    BookkeepingQueue(m, idle, e, m');
    forall i | i in m.stacks ensures SameView(m, m', i) && ThreadAt(m', i) {
      BookkeepingView(m, idle, e, m', i);
    }
  }

  lemma BookkeepingQueue(m: Machine, idle: nat, e: Event, m': Machine)
    requires Sound(m, idle) && Next(m, idle, e, m') && (e.ExitThread? || e.Detach? || e.Refuse?)
    ensures m'.stacks == m.stacks && m'.mem == m.mem && m'.sched.current == m.sched.current
    ensures forall i :: i in m'.sched.queue ==> i in m.sched.queue
  {
    if e.Detach? {
      WithoutKeeps(m.sched.queue, e.thread, idle);
    }
  }

  lemma BookkeepingView(m: Machine, idle: nat, e: Event, m': Machine, i: nat)
    requires Sound(m, idle) && Next(m, idle, e, m') && (e.ExitThread? || e.Detach? || e.Refuse?) && i in m.stacks
    ensures SameView(m, m', i) && ThreadAt(m', i)
  {
    assert ThreadAt(m, i);
    ViewElsewhere(m, m', i);
  }

  /** A new thread is parked on the frame built for it. */
  lemma StartOk(mem: Memory, r: Regs, t: Tcb, k: Stack, start: Word, userEsp: Word)
    requires 4 * |mem| < TWO_TO_THE_32 && k.lo + ROOM <= k.hi <= |mem| && t.tid != 0
    requires t.stackTop == 4 * k.hi && t.saved == 4 * (k.hi - FrameSize(t.user))
    ensures var mem' := StartMemory(mem, k, t.user, start, userEsp);
      && ThreadOk(mem', r, false, t, k)
      && Seen(mem', r, false, t, k).regs == InitialRegs(t.user, start, if t.user then userEsp else t.stackTop)
  {
    FirstDispatch(mem, k.hi, t.user, start, userEsp);
  }

  lemma CreateStacks(m: Machine, idle: nat, e: Event, m': Machine)
    requires Sound(m, idle) && Next(m, idle, e, m') && e.Create?
    ensures e.slot !in m.stacks && AllApart(m'.stacks)
    ensures forall i {:trigger m.stacks[i]} :: i in m.stacks ==> Agrees(m.mem, m'.mem, m.stacks[i])
  {
    assert e.slot in m.stacks ==> ThreadAt(m, e.slot);
    forall i | i in m.stacks ensures Agrees(m.mem, m'.mem, m.stacks[i]) {
      assert Apart(e.stack, m.stacks[i]) && ThreadAt(m, i);
    }
    forall i, j | i in m'.stacks && j in m'.stacks && i != j ensures Apart(m'.stacks[i], m'.stacks[j]) {
      if i == e.slot {
        assert Apart(e.stack, m.stacks[j]);
      } else if j == e.slot {
        assert Apart(e.stack, m.stacks[i]);
      } else {
        assert Apart(m.stacks[i], m.stacks[j]);
      }
    }
  }

  /** Thread e.slot is about to start as event e says. */
  predicate StartsAs(m: Machine, e: Event)
    requires e.Create?
  {
    && e.slot in m.stacks && ThreadAt(m, e.slot)
    && View(m, e.slot).regs == InitialRegs(e.tcb.user, e.start, if e.tcb.user then e.userEsp else e.tcb.stackTop)
  }

  lemma CreateStarts(m: Machine, idle: nat, e: Event, m': Machine)
    requires Sound(m, idle) && Next(m, idle, e, m') && e.Create?
    ensures StartsAs(m', e) && !Runs(m', e.slot)
  {
    CreateStacks(m, idle, e, m');
    StartOk(m.mem, m.regs, e.tcb, e.stack, e.start, e.userEsp);
  }

  lemma CreateLeaves(m: Machine, idle: nat, e: Event, m': Machine, i: nat)
    requires Sound(m, idle) && Next(m, idle, e, m') && e.Create? && i in m.stacks
    ensures SameView(m, m', i)
  {
    CreateStacks(m, idle, e, m');
    assert ThreadAt(m, i) && m.stacks[i] == m.stacks[i];
    ViewElsewhere(m, m', i);
  }

  /** One more thread beside the others. */
  lemma Joined(m: Machine, m': Machine, i: nat, k: Stack)
    requires Placed(m) && |m'.mem| == |m.mem| && m'.sched.current == m.sched.current
    requires m'.stacks == m.stacks[i := k] && AllApart(m'.stacks) && m'.sched.queue == m.sched.queue + [i]
    requires ThreadAt(m', i) && SameViews(m, m')
    ensures Placed(m')
  {
    forall j | j in m'.stacks ensures ThreadAt(m', j) {
      assert j != i ==> SameView(m, m', j);
    }
  }

  lemma CreateQueues(m: Machine, idle: nat, e: Event, m': Machine)
    requires Sound(m, idle) && Next(m, idle, e, m') && e.Create?
    ensures m'.stacks == m.stacks[e.slot := e.stack] && m'.sched.queue == m.sched.queue + [e.slot]
    ensures |m'.mem| == |m.mem| && m'.sched.current == m.sched.current && e.slot !in m.stacks
    ensures AllApart(m'.stacks)
  {
    CreateStacks(m, idle, e, m');
  }

  lemma CreateKeeps(m: Machine, idle: nat, e: Event, m': Machine)
    requires Sound(m, idle) && Next(m, idle, e, m') && e.Create?
    ensures Keeps(m, idle, e, m')
  {
    EventSound(m, idle, e, m');
    CreateQueues(m, idle, e, m');
    CreateStarts(m, idle, e, m');
    assert SameViews(m, m') by {
      forall i | i in m.stacks ensures SameView(m, m', i) {
        CreateLeaves(m, idle, e, m', i);
      }
    }
    Joined(m, m', e.slot, e.stack);
  }

  /** Every event keeps the invariant and every thread's view of its registers and its stack,
      except that a thread's own work changes its own. */
  lemma EventKeeps(m: Machine, idle: nat, e: Event, m': Machine)
    requires Sound(m, idle) && Next(m, idle, e, m')
    ensures Keeps(m, idle, e, m')
  {
    match e
    case Interrupt(_) => InterruptKeeps(m, idle, e, m');
    case Trap(_) => TrapKeeps(m, idle, e, m');
    case Work(_, _) => WorkKeeps(m, idle, e, m');
    case ExitThread => BookkeepingKeeps(m, idle, e, m');
    case Create(_, _, _, _, _, _, _) => CreateKeeps(m, idle, e, m');
    case Detach(_) => BookkeepingKeeps(m, idle, e, m');
    case Refuse(_, _) => BookkeepingKeeps(m, idle, e, m');
  }

  /** The handler can always run: whenever the invariant holds, an interrupt has a next state. */
  lemma InterruptPossible(m: Machine, idle: nat, below: Scratch)
    requires Sound(m, idle)
    ensures exists m' :: Next(m, idle, Interrupt(below), m')
  {
    InterruptKeepsViews(m, idle, below);
    assert Next(m, idle, Interrupt(below), Irq0(m, below));
  }

  // ---- whole runs -------------------------------------------------------------------------

  /** A run: machine states ms, each following from the one before by the event between them. */
  predicate Run(ms: seq<Machine>, idle: nat, es: seq<Event>) {
    && |ms| == |es| + 1
    && Sound(ms[0], idle)
    && forall k {:trigger es[k]} :: 0 <= k < |es| ==> Next(ms[k], idle, es[k], ms[k + 1])
  }

  lemma {:induction false} RunSound(ms: seq<Machine>, idle: nat, es: seq<Event>, k: nat)
    requires Run(ms, idle, es) && k < |ms|
    ensures Sound(ms[k], idle)
    decreases k
  {
    if k > 0 {
      RunSound(ms, idle, es, k - 1);
      assert Next(ms[k - 1], idle, es[k - 1], ms[k]);
      EventKeeps(ms[k - 1], idle, es[k - 1], ms[k]);
    }
  }

  /** Thread i executes nothing of its own between instants j and k. */
  predicate Rests(ms: seq<Machine>, es: seq<Event>, i: nat, j: nat, k: nat)
    requires j <= k < |ms| == |es| + 1
  {
    forall x {:trigger es[x]} :: j <= x < k ==> !(es[x].Work? && Runs(ms[x], i))
  }

  lemma RunKeeps(ms: seq<Machine>, idle: nat, es: seq<Event>, k: nat)
    requires Run(ms, idle, es) && k < |es|
    ensures Sound(ms[k], idle) && Next(ms[k], idle, es[k], ms[k + 1]) && Keeps(ms[k], idle, es[k], ms[k + 1])
  {
    RunSound(ms, idle, es, k);
    assert Next(ms[k], idle, es[k], ms[k + 1]);
    EventKeeps(ms[k], idle, es[k], ms[k + 1]);
  }

  lemma SameViewTwice(m: Machine, m': Machine, m'': Machine, i: nat)
    requires i in m.stacks && SameView(m, m', i) && SameView(m', m'', i)
    ensures SameView(m, m'', i)
  {
  }

  /** Context preservation: between any two instants of any run, however far apart and whatever the
      other threads do, a thread that executes nothing of its own keeps its registers and stack. */
  lemma {:induction false} ViewPreserved(ms: seq<Machine>, idle: nat, es: seq<Event>, i: nat, j: nat, k: nat)
    requires Run(ms, idle, es) && j <= k < |ms| && i in ms[j].stacks && Rests(ms, es, i, j, k)
    ensures SameView(ms[j], ms[k], i) && |ms[k].mem| == |ms[j].mem|
    decreases k
  {
    if j < k {
      ViewPreserved(ms, idle, es, i, j, k - 1);
      assert !(es[k - 1].Work? && Runs(ms[k - 1], i));
      assert |ms[k].mem| == |ms[k - 1].mem| && SameView(ms[k - 1], ms[k], i) by { RunKeeps(ms, idle, es, k - 1); }
      SameViewTwice(ms[j], ms[k - 1], ms[k], i);
    } else {
      RunSound(ms, idle, es, k);
      assert ThreadAt(ms[k], i);
    }
  }

  /** A preempted thread that has the processor again has exactly the registers, selectors,
      instruction pointer, flags and stack pointer it was interrupted with, and the same stack. */
  lemma ResumedExactly(ms: seq<Machine>, idle: nat, es: seq<Event>, c: nat, j: nat, k: nat)
    requires Run(ms, idle, es) && j <= k < |ms| && Rests(ms, es, c, j, k)
    requires Runs(ms[j], c) && Runs(ms[k], c)
    ensures ms[k].regs == ms[j].regs
    ensures c in ms[j].stacks
    ensures !UserMode(ms[j].regs.cs) ==>
      var hi := ms[j].stacks[c].hi; var lo := ms[j].regs.esp / 4;
      lo <= hi <= |ms[j].mem| == |ms[k].mem| && ms[k].mem[lo..hi] == ms[j].mem[lo..hi]
  {
    RunSound(ms, idle, es, j);
    ViewPreserved(ms, idle, es, c, j, k);
  }

  /** A new thread that gets the processor for the first time starts as it was meant to. */
  lemma FirstRun(ms: seq<Machine>, idle: nat, es: seq<Event>, j: nat, k: nat)
    requires Run(ms, idle, es) && j < k < |ms| && es[j].Create?
    requires Rests(ms, es, es[j].slot, j + 1, k) && Runs(ms[k], es[j].slot)
    ensures var e := es[j];
      ms[k].regs == InitialRegs(e.tcb.user, e.start, if e.tcb.user then e.userEsp else e.tcb.stackTop)
    ensures var r := ms[k].regs;
      && r.eip == es[j].start && r.eflags / 0x200 % 2 == 1 && r.eax == r.ecx == r.edx == r.ebx == r.ebp == r.esi == r.edi == 0
      && if es[j].tcb.user then r.esp == es[j].userEsp && r.cs == 0x1B && r.ds == r.es == r.fs == r.gs == r.ss == 0x23
         else r.esp == es[j].tcb.stackTop && r.cs == 0x08 && r.ds == r.es == r.fs == r.gs == r.ss == 0x10
  {
    assert StartsAs(ms[j + 1], es[j]) by {
      RunKeeps(ms, idle, es, j);
      CreateStarts(ms[j], idle, es[j], ms[j + 1]);
    }
    ViewPreserved(ms, idle, es, es[j].slot, j + 1, k);
  }

  // ---- the scheduler's share --------------------------------------------------------------

  function Scheds(ms: seq<Machine>): seq<Sched> {
    seq(|ms|, k requires 0 <= k < |ms| => ms[k].sched)
  }

  function Projections(ms: seq<Machine>, es: seq<Event>): seq<Step>
    requires |ms| == |es| + 1 && forall k :: 0 <= k < |es| ==> Interruptible(ms[k])
  {
    seq(|es|, k requires 0 <= k < |es| => Projection(ms[k], es[k]))
  }

  /** A run of the machine is, instant by instant, a run of the scheduler; so what holds of every
      scheduler run (one thread runs, dead threads stay dead, waiting is bounded) holds here. */
  lemma RunProjects(ms: seq<Machine>, idle: nat, es: seq<Event>)
    requires Run(ms, idle, es)
    ensures forall k :: 0 <= k < |es| ==> Interruptible(ms[k])
    ensures Trace(Scheds(ms), idle, Projections(ms, es))
  {
    forall k | 0 <= k < |es| ensures Next(ms[k], idle, es[k], ms[k + 1]) && Interruptible(ms[k]) {
      assert Next(ms[k], idle, es[k], ms[k + 1]);
    }
    var ss, steps := Scheds(ms), Projections(ms, es);
    forall k | 0 <= k < |steps| ensures Follows(ss[k], idle, steps[k], ss[k + 1]) {
      assert Next(ms[k], idle, es[k], ms[k + 1]);
    }
  }

  /** Interrupts and yields among the first k events. */
  function Entries(es: seq<Event>, k: nat): nat
    requires k <= |es|
  {
    if k == 0 then 0 else Entries(es, k - 1) + (if es[k - 1].Interrupt? || es[k - 1].Trap? then 1 else 0)
  }

  lemma {:induction false} EntriesAreTicks(ms: seq<Machine>, es: seq<Event>, k: nat)
    requires |ms| == |es| + 1 && (forall x :: 0 <= x < |es| ==> Interruptible(ms[x])) && k <= |es|
    ensures Ticks(Projections(ms, es), k) == Entries(es, k)
    decreases k
  {
    if k > 0 {
      EntriesAreTicks(ms, es, k - 1);
    }
  }

  /** On the machine: a ready thread at distance d has the processor before d * QUANTUM interrupts
      and yields have been taken, whatever work is done and whichever threads exit meanwhile. */
  lemma ServedInTime(ms: seq<Machine>, idle: nat, es: seq<Event>, t: nat)
    requires Run(ms, idle, es) && (forall k :: 0 <= k < |es| ==> !es[k].Create? && !es[k].Detach?)
    requires Waiting(ms[0].sched, t) && Entries(es, |es|) >= Distance(ms[0].sched, t) * QUANTUM
    ensures exists k :: 0 <= k < |ms| && Runs(ms[k], t)
  {
    RunProjects(ms, idle, es);
    EntriesAreTicks(ms, es, |es|);
    MembersStay(ms, es);
    var k := ServedSomewhere(Scheds(ms), idle, Projections(ms, es), t);
    assert Runs(ms[k], t);
  }

  lemma MembersStay(ms: seq<Machine>, es: seq<Event>)
    requires |ms| == |es| + 1 && forall x :: 0 <= x < |es| ==> Interruptible(ms[x])
    requires forall k :: 0 <= k < |es| ==> !es[k].Create? && !es[k].Detach?
    ensures forall k :: 0 <= k < |es| ==> SameMembers(Projections(ms, es)[k])
  {
  }

  lemma ServedSomewhere(ss: seq<Sched>, idle: nat, steps: seq<Step>, t: nat) returns (k: nat)
    requires Trace(ss, idle, steps) && forall i :: 0 <= i < |steps| ==> SameMembers(steps[i])
    requires Waiting(ss[0], t) && Ticks(steps, |steps|) >= Distance(ss[0], t) * QUANTUM
    ensures k < |ss| && ss[k].current == Some(t)
  {
    BoundedWaiting(ss, idle, steps, t);
    k :| 0 < k < |ss| && ss[k].current == Some(t);
  }

  /** On the machine: a thread that has exited never has the processor at the end of an interrupt. */
  lemma DeadForever(ms: seq<Machine>, idle: nat, es: seq<Event>, i: nat, j: nat, k: nat)
    requires Run(ms, idle, es) && j <= k < |es| && (es[k].Interrupt? || es[k].Trap?)
    requires var s := ms[j].sched; i < |s.tcbs| && s.tcbs[i].state.Dead? && s.tcbs[i].tid != 0
    ensures !Runs(ms[k + 1], i)
  {
    RunProjects(ms, idle, es);
    var ss, steps := Scheds(ms), Projections(ms, es);
    DeadStaysDead(ss, idle, steps, j, k + 1, i);
    TraceCoherent(ss, idle, steps, k + 1);
    assert Settled(ss[k + 1]);
  }
}
