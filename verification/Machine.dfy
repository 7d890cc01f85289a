/**
 The processor, its memory and the scheduler together.  The one theorem here is about a single
 timer interrupt: whoever it dispatches, no thread's registers or stack change.
 */
module Machine {
  import opened Basics
  import opened SchedulerSpec
  import opened Frames

  /** A kernel stack: words lo up to hi. */
  datatype Stack = Stack(lo: nat, hi: nat)

  /** stacks names, for every thread set up so far, the memory its kernel stack owns. */
  datatype Machine = Machine(regs: Regs, mem: Memory, sched: Sched, stacks: map<nat, Stack>)

  /** What a thread sees of itself: its registers, and the words it has pushed on its kernel stack
      (none in Ring 3, where that stack is empty). */
  datatype Context = Context(regs: Regs, pushed: seq<Word>)

  /** Words the call of scheduler_tick may use below the frame: its argument, its return address, and
      whatever the compiled code and its callees push. */
  const CALL_ROOM := 237

  /** Words an interrupt needs below the stack pointer: its frame and that call. */
  const ROOM := 256

  /** The words left below a frame when scheduler_tick has returned. */
  type Scratch = s: seq<Word> | |s| <= CALL_ROOM

  predicate Apart(a: Stack, b: Stack) { a.hi <= b.lo || b.hi <= a.lo }

  predicate Agrees(mem: Memory, mem': Memory, k: Stack) {
    k.hi <= |mem| == |mem'| && forall w :: k.lo <= w < k.hi ==> mem'[w] == mem[w]
  }

  // ---- one thread -------------------------------------------------------------------------

  /** Registers a thread with stack k may run with. */
  predicate RunsWell(r: Regs, t: Tcb, k: Stack) {
    if UserMode(r.cs) then t.user
    else r.cs % 4 == 0 && r.ss == KERNEL_DATA && r.esp % 4 == 0 && k.lo + ROOM <= r.esp / 4 <= k.hi
  }

  /** The saved context of a thread that is not running lies in its own stack, with room left to
      be interrupted again; a Ring 3 context fills the very top of the stack. */
  predicate Parked(mem: Memory, t: Tcb, k: Stack) {
    && t.saved % 4 == 0
    && var a := t.saved / 4;
       k.lo <= a && HoldsFrame(mem, a) &&
       if UserMode(SavedCs(mem, a)) then t.user && a + 19 == k.hi
       else SavedCs(mem, a) % 4 == 0 && k.lo + ROOM <= a + 17 <= k.hi
  }

  predicate ThreadOk(mem: Memory, r: Regs, runs: bool, t: Tcb, k: Stack) {
    && 4 * |mem| < TWO_TO_THE_32 && k.lo + ROOM <= k.hi <= |mem|
    && t.tid != 0 && (t.user ==> t.stackTop == 4 * k.hi)
    && if runs then RunsWell(r, t, k) else Parked(mem, t, k)
  }

  /** The registers a thread owns: the processor's while it runs, those in its frame otherwise. */
  function Registers(mem: Memory, r: Regs, runs: bool, t: Tcb): Regs
    requires runs || HoldsFrame(mem, t.saved / 4)
  {
    if runs then r else Restore(mem, t.saved / 4, KERNEL_DATA)
  }

  lemma RegistersRunWell(mem: Memory, r: Regs, runs: bool, t: Tcb, k: Stack)
    requires ThreadOk(mem, r, runs, t, k)
    ensures RunsWell(Registers(mem, r, runs, t), t, k)
  {
    var a := t.saved / 4;
    assert !runs && !UserMode(SavedCs(mem, a)) ==> 4 * (a + 17) < TWO_TO_THE_32;
  }

  function Seen(mem: Memory, r: Regs, runs: bool, t: Tcb, k: Stack): Context
    requires ThreadOk(mem, r, runs, t, k)
  {
    RegistersRunWell(mem, r, runs, t, k);
    var v := Registers(mem, r, runs, t);
    Context(v, if UserMode(v.cs) then [] else mem[v.esp / 4..k.hi])
  }

  /** Changes outside its stack do not concern a thread. */
  lemma SeenElsewhere(mem: Memory, mem': Memory, r: Regs, r': Regs, runs: bool, t: Tcb, t': Tcb, k: Stack)
    requires ThreadOk(mem, r, runs, t, k) && Agrees(mem, mem', k)
    requires t'.user == t.user && t'.tid == t.tid && t'.stackTop == t.stackTop
    requires if runs then r' == r else t'.saved == t.saved
    ensures ThreadOk(mem', r', runs, t', k) && Seen(mem', r', runs, t', k) == Seen(mem, r, runs, t, k)
  {
    if !runs {
      RestoreReadsFrame(mem, mem', t.saved / 4, KERNEL_DATA);
    }
    RegistersRunWell(mem, r, runs, t, k);
    var v := Registers(mem, r, runs, t);
    if !UserMode(v.cs) {
      assert mem'[v.esp / 4..k.hi] == mem[v.esp / 4..k.hi];
    }
  }

  /** A parked thread whose registers are loaded sees the same as before. */
  lemma SeenWhenResumed(mem: Memory, r: Regs, t: Tcb, t': Tcb, k: Stack)
    requires ThreadOk(mem, r, false, t, k)
    requires t'.user == t.user && t'.tid == t.tid && t'.stackTop == t.stackTop
    ensures var r' := Registers(mem, r, false, t);
      ThreadOk(mem, r', true, t', k) && Seen(mem, r', true, t', k) == Seen(mem, r, false, t, k)
  {
    RegistersRunWell(mem, r, false, t, k);
  }

  // ---- the interrupt ----------------------------------------------------------------------

  /** Just above the first word an interrupt pushes: TSS.ESP0 when it comes from Ring 3. */
  function EntryTop(r: Regs, esp0: Word): nat {
    if UserMode(r.cs) then esp0 / 4 else r.esp / 4
  }

  /** The address of the frame an interrupt leaves. */
  function FrameAt(r: Regs, esp0: Word): int {
    4 * (EntryTop(r, esp0) - FrameSize(UserMode(r.cs)))
  }

  /** Frame f pushed below word top, and below it what the call leaves. */
  function PushFrame(mem: Memory, f: seq<Word>, top: nat, below: Scratch): (mem': Memory)
    requires |f| + |below| <= top <= |mem| && 4 * |mem| < TWO_TO_THE_32
    ensures |mem'| == |mem|
  {
    Splice(mem, top - |f| - |below|, below + f)
  }

  /** Memory once an interrupt has pushed registers r. */
  function PushedMemory(mem: Memory, r: Regs, top: nat, below: Scratch): (mem': Memory)
    requires ROOM <= top <= |mem| && 4 * |mem| < TWO_TO_THE_32
  {
    PushFrame(mem, SavedFrame(r, top), top, below)
  }

  /** What matters of those pushes: they stay below top, and a restore from there gives r back. */
  predicate Pushes(mem: Memory, mem': Memory, r: Regs, top: nat) {
    var a := top - FrameSize(UserMode(r.cs));
    && ROOM <= top <= |mem| == |mem'|
    && (forall w :: 0 <= w < |mem| && !(top - ROOM <= w < top) ==> mem'[w] == mem[w])
    && HoldsFrame(mem', a) && SavedCs(mem', a) == r.cs && Restore(mem', a, KERNEL_DATA) == r
  }

  /** Any frame that loads to r will do. */
  lemma FramePushes(mem: Memory, r: Regs, top: nat, below: Scratch, f: seq<Word>)
    requires ROOM <= top <= |mem| && 4 * |mem| < TWO_TO_THE_32
    requires |f| == FrameSize(UserMode(r.cs)) && f[CS_OFFSET] == r.cs
    requires Load(f, 4 * top, KERNEL_DATA) == r
    ensures Pushes(mem, PushFrame(mem, f, top, below), r, top)
  {
    var a, m := top - |f|, PushFrame(mem, f, top, below);
    assert m[a + CS_OFFSET] == f[CS_OFFSET];
    assert m[a..top] == f;
  }

  lemma PushedMemoryPushes(mem: Memory, r: Regs, top: nat, below: Scratch)
    requires ROOM <= top <= |mem| && 4 * |mem| < TWO_TO_THE_32
    requires !UserMode(r.cs) ==> r.esp == 4 * top && r.ss == KERNEL_DATA
    ensures Pushes(mem, PushedMemory(mem, r, top, below), r, top)
  {
    LoadSaved(r, TIMER_VECTOR, 4 * (top - FrameSize(UserMode(r.cs)) + 12), 4 * top, KERNEL_DATA);
    FramePushes(mem, r, top, below, SavedFrame(r, top));
  }

  lemma EntryBounds(mem: Memory, r: Regs, t: Tcb, k: Stack)
    requires ThreadOk(mem, r, true, t, k)
    ensures ROOM <= k.lo + ROOM <= EntryTop(r, t.stackTop) <= k.hi && FrameAt(r, t.stackTop) >= 8
    ensures !UserMode(r.cs) ==> r.esp == 4 * EntryTop(r, t.stackTop) && r.ss == KERNEL_DATA
  {
  }

  /** The interrupted thread sees exactly what it saw. */
  lemma SeenWhenInterrupted(mem: Memory, mem': Memory, r: Regs, t: Tcb, t': Tcb, k: Stack)
    requires ThreadOk(mem, r, true, t, k) && Pushes(mem, mem', r, EntryTop(r, t.stackTop))
    requires t'.user == t.user && t'.tid == t.tid && t'.stackTop == t.stackTop
    requires t'.saved == FrameAt(r, t.stackTop)
    ensures ThreadOk(mem', r, false, t', k) && Seen(mem', r, false, t', k) == Seen(mem, r, true, t, k)
  {
    var top := EntryTop(r, t.stackTop);
    EntryBounds(mem, r, t, k);
    assert t'.saved / 4 == top - FrameSize(UserMode(r.cs));
    assert mem'[top..k.hi] == mem[top..k.hi];
  }

  // ---- all threads ------------------------------------------------------------------------

  predicate Runs(m: Machine, i: nat) { m.sched.current == Some(i) }

  predicate ThreadAt(m: Machine, i: nat)
    requires i in m.stacks
  {
    i < |m.sched.tcbs| && ThreadOk(m.mem, m.regs, Runs(m, i), m.sched.tcbs[i], m.stacks[i])
  }

  predicate AllApart(stacks: map<nat, Stack>) {
    forall i, j {:trigger Apart(stacks[i], stacks[j])} ::
      i in stacks && j in stacks && i != j ==> Apart(stacks[i], stacks[j])
  }

  /** Every thread's context is where it belongs. */
  predicate Placed(m: Machine) {
    && 4 * |m.mem| < TWO_TO_THE_32
    && m.sched.current.Some? && m.sched.current.value in m.stacks
    && (forall i :: i in m.sched.queue ==> i in m.stacks)
    && AllApart(m.stacks)
    && (forall i {:trigger ThreadAt(m, i)} :: i in m.stacks ==> ThreadAt(m, i))
  }

  /** What every run keeps. */
  predicate Sound(m: Machine, idle: nat) {
    Coherent(m.sched, idle) && Placed(m)
  }

  /** What thread i sees of itself. */
  function View(m: Machine, i: nat): Context
    requires i in m.stacks && ThreadAt(m, i)
  {
    Seen(m.mem, m.regs, Runs(m, i), m.sched.tcbs[i], m.stacks[i])
  }

  /** The state an interrupt leaves when the pushes give memory mem and the scheduler answers with
      state s and context ctx. */
  function Resumed(m: Machine, mem: Memory, s: Sched, ctx: Word): Machine
    requires HoldsFrame(mem, ctx / 4)
  {
    var ss := if UserMode(m.regs.cs) then KERNEL_DATA else m.regs.ss;
    m.(regs := Restore(mem, ctx / 4, ss), mem := mem, sched := s)
  }

  /** Interrupts find room in the stack of the thread they interrupt. */
  predicate Interruptible(m: Machine) {
    && Placed(m) && m.sched.current.value < |m.sched.tcbs|
    && m.sched.esp0 == m.sched.tcbs[m.sched.current.value].stackTop
    && ROOM <= EntryTop(m.regs, m.sched.esp0) <= |m.mem| && FrameAt(m.regs, m.sched.esp0) >= 8
  }

  lemma EntryInStack(m: Machine)
    requires Placed(m) && m.sched.current.value < |m.sched.tcbs|
    requires m.sched.esp0 == m.sched.tcbs[m.sched.current.value].stackTop
    ensures Interruptible(m)
    ensures !UserMode(m.regs.cs) ==>
      m.regs.esp == 4 * EntryTop(m.regs, m.sched.esp0) && m.regs.ss == KERNEL_DATA
  {
    var c := m.sched.current.value;
    assert ThreadAt(m, c);
    EntryBounds(m.mem, m.regs, m.sched.tcbs[c], m.stacks[c]);
  }

  function Trapped(m: Machine, below: Scratch): Memory
    requires Interruptible(m)
  {
    PushedMemory(m.mem, m.regs, EntryTop(m.regs, m.sched.esp0), below)
  }

  /** The handler from the interrupted instruction to the resumed one. */
  function Irq0(m: Machine, below: Scratch): Machine
    requires WellFormed(m.sched) && Interruptible(m)
    requires HoldsFrame(Trapped(m, below), Tick(m.sched, FrameAt(m.regs, m.sched.esp0)).1 / 4)
  {
    var (s, ctx) := Tick(m.sched, FrameAt(m.regs, m.sched.esp0));
    Resumed(m, Trapped(m, below), s, ctx)
  }

  /** All threads are parked in the memory the pushes leave, and see what they saw. */
  lemma SuspendedView(m: Machine, mem: Memory, i: nat, t: Tcb)
    requires Interruptible(m) && Pushes(m.mem, mem, m.regs, EntryTop(m.regs, m.sched.esp0))
    requires i in m.stacks && i < |m.sched.tcbs| && SameThread(m.sched.tcbs[i], t)
    requires t.saved == if Runs(m, i) then FrameAt(m.regs, m.sched.esp0) else m.sched.tcbs[i].saved
    ensures ThreadAt(m, i)
    ensures ThreadOk(mem, m.regs, false, t, m.stacks[i]) && Seen(mem, m.regs, false, t, m.stacks[i]) == View(m, i)
  {
    var c := m.sched.current.value;
    var k := m.stacks[c];
    assert ThreadAt(m, i) && ThreadAt(m, c);
    if i == c {
      SeenWhenInterrupted(m.mem, mem, m.regs, m.sched.tcbs[c], t, k);
    } else {
      EntryBounds(m.mem, m.regs, m.sched.tcbs[c], k);
      assert Apart(m.stacks[i], k);
      SeenElsewhere(m.mem, mem, m.regs, m.regs, false, m.sched.tcbs[i], t, m.stacks[i]);
    }
  }

  predicate SameView(m: Machine, m': Machine, i: nat)
    requires i in m.stacks
  {
    && i in m'.stacks && m'.stacks[i] == m.stacks[i]
    && ThreadAt(m, i) && ThreadAt(m', i) && View(m', i) == View(m, i)
  }

  predicate SameViews(m: Machine, m': Machine) {
    forall i {:trigger SameView(m, m', i)} :: i in m.stacks ==> SameView(m, m', i)
  }

  lemma ResumedContext(m: Machine, mem: Memory, s: Sched, ctx: Word)
    requires Interruptible(m) && Pushes(m.mem, mem, m.regs, EntryTop(m.regs, m.sched.esp0))
    requires TickEffect(m.sched, FrameAt(m.regs, m.sched.esp0), s, ctx)
    ensures var n := s.current.value;
      && n in m.stacks && s.tcbs[n].saved == ctx
      && ThreadOk(mem, m.regs, false, s.tcbs[n], m.stacks[n])
      && Resumed(m, mem, s, ctx).regs == Registers(mem, m.regs, false, s.tcbs[n])
  {
    var n, c := s.current.value, m.sched.current.value;
    assert SameThread(m.sched.tcbs[n], s.tcbs[n]) && s.tcbs[c].saved == FrameAt(m.regs, m.sched.esp0);
    assert ThreadAt(m, c);
    SuspendedView(m, mem, n, s.tcbs[n]);
  }

  lemma ResumedView(m: Machine, mem: Memory, s: Sched, ctx: Word, i: nat)
    requires Interruptible(m) && Pushes(m.mem, mem, m.regs, EntryTop(m.regs, m.sched.esp0))
    requires TickEffect(m.sched, FrameAt(m.regs, m.sched.esp0), s, ctx) && HoldsFrame(mem, ctx / 4)
    requires i in m.stacks
    ensures SameView(m, Resumed(m, mem, s, ctx), i)
  {
    var m' := Resumed(m, mem, s, ctx);
    assert ThreadAt(m, i);
    var t := s.tcbs[i];
    assert SameThread(m.sched.tcbs[i], t);
    SuspendedView(m, mem, i, t);
    if Runs(m', i) {
      ResumedContext(m, mem, s, ctx);
      SeenWhenResumed(mem, m.regs, t, t, m.stacks[i]);
    } else {
      SeenElsewhere(mem, mem, m.regs, m'.regs, false, t, t, m.stacks[i]);
    }
  }

  /** Whatever the scheduler decides within its contract, nobody's view changes. */
  lemma ResumedViews(m: Machine, mem: Memory, s: Sched, ctx: Word)
    requires Interruptible(m) && Pushes(m.mem, mem, m.regs, EntryTop(m.regs, m.sched.esp0))
    requires TickEffect(m.sched, FrameAt(m.regs, m.sched.esp0), s, ctx)
    ensures HoldsFrame(mem, ctx / 4)
    ensures Placed(Resumed(m, mem, s, ctx)) && SameViews(m, Resumed(m, mem, s, ctx))
  {
    ResumedContext(m, mem, s, ctx);
    var m' := Resumed(m, mem, s, ctx);
    forall i | i in m.stacks ensures SameView(m, m', i) {
      ResumedView(m, mem, s, ctx, i);
    }
    forall i | i in m'.stacks ensures ThreadAt(m', i) {
      assert SameView(m, m', i);
    }
  }

  /** The timer interrupt keeps the invariant and changes what no thread sees of its registers and
      its stack, whoever it dispatches. */
  lemma InterruptKeepsViews(m: Machine, idle: nat, below: Scratch)
    requires Core(m.sched, idle) && 0 <= m.sched.tcbs[m.sched.current.value].quantum <= QUANTUM && Placed(m)
    ensures Interruptible(m)
    ensures HoldsFrame(Trapped(m, below), Tick(m.sched, FrameAt(m.regs, m.sched.esp0)).1 / 4)
    ensures Sound(Irq0(m, below), idle) && Irq0(m, below).stacks == m.stacks && SameViews(m, Irq0(m, below))
  {
    EntryInStack(m);
    PushedMemoryPushes(m.mem, m.regs, EntryTop(m.regs, m.sched.esp0), below);
    var ctx := FrameAt(m.regs, m.sched.esp0);
    TickOutcome(m.sched, idle, ctx);
    TickCoherent(m.sched, idle, ctx);
    ResumedViews(m, Trapped(m, below), Tick(m.sched, ctx).0, Tick(m.sched, ctx).1);
  }

  /** Sound, but for a quantum that a yield may have cleared: the state an interrupt is taken in. */
  predicate Trappable(m: Machine, idle: nat) {
    Core(m.sched, idle) && 0 <= m.sched.tcbs[m.sched.current.value].quantum <= QUANTUM && Placed(m)
  }

  function Handled(m: Machine, idle: nat, below: Scratch): Machine
    requires Trappable(m, idle)
  {
    InterruptKeepsViews(m, idle, below);
    Irq0(m, below)
  }
}
