/**
 The round-robin dispatcher as a transition system on values.  A thread is named by its
 slot in the thread table; the circular run queue is the sequence of queued slots, head first.
 */
module SchedulerSpec {
  import opened Basics

  const QUANTUM := 10

  datatype ThreadState = Ready | Running | Blocked | Dead

  /** saved is the stack pointer of the saved context; 0 stands for NULL. */
  datatype Tcb = Tcb(tid: nat, pid: nat, state: ThreadState, user: bool,
                     stackTop: Word, saved: Word, quantum: int)

  datatype Pcb = Pcb(active: bool, pid: nat, pageDir: Word)

  datatype Sched = Sched(
    tcbs: seq<Tcb>,
    queue: seq<nat>,
    current: Option<nat>,      // the scheduler's own pointer
    running: Option<nat>,      // the process manager's pointer
    procs: seq<Pcb>,
    switches: nat,
    ticks: nat,
    cr3: Word,
    esp0: Word)

  predicate WellFormed(s: Sched) {
    && (forall k :: 0 <= k < |s.queue| ==> s.queue[k] < |s.tcbs|)
    && Distinct(s.queue)
    && (s.current.Some? ==> s.current.value < |s.tcbs|)
  }

  // ---- choosing the next thread ------------------------------------------------------

  /** Position i on a ring of n places, for i below 2 * n. */
  function Turn(n: nat, i: nat): nat {
    if i < n then i else i - n
  }

  /** Where a search for the next thread starts: at the successor of the current thread, or at
      the head when the current thread is not queued. */
  function Start(q: seq<nat>, current: Option<nat>): (i: nat)
    requires q != []
    ensures i < |q|
  {
    if current.Some? && current.value in q && IndexOf(q, current.value) + 1 < |q|
    then IndexOf(q, current.value) + 1 else 0
  }

  /** How many threads a search that starts at position start passes before it reaches x. */
  function Offset(q: seq<nat>, start: nat, x: nat): nat
    requires start < |q| && x in q
  {
    Turn(|q|, IndexOf(q, x) + |q| - start)
  }

  lemma OffsetPlace(q: seq<nat>, start: nat, x: nat)
    requires start < |q| && x in q
    ensures Offset(q, start, x) < |q| && q[Turn(|q|, start + Offset(q, start, x))] == x
  {
  }

  lemma OffsetAt(q: seq<nat>, start: nat, k: nat)
    requires Distinct(q) && start < |q| && k < |q|
    ensures var x := q[Turn(|q|, start + k)]; x in q && Offset(q, start, x) == k
  {
    IndexOfAt(q, Turn(|q|, start + k));
  }

  predicate ReadyAt(tcbs: seq<Tcb>, q: seq<nat>, start: nat, k: nat)
    requires start < |q| && k < |q| && forall i :: 0 <= i < |q| ==> q[i] < |tcbs|
  {
    tcbs[q[Turn(|q|, start + k)]].state.Ready?
  }

  /** The offset, k or more, of the first ready thread. */
  function FirstReady(tcbs: seq<Tcb>, q: seq<nat>, start: nat, k: nat): (r: Option<nat>)
    requires forall i :: 0 <= i < |q| ==> q[i] < |tcbs|
    requires start < |q| && k <= |q|
    ensures r.Some? ==> k <= r.value < |q| && ReadyAt(tcbs, q, start, r.value)
    ensures forall i: nat {:trigger ReadyAt(tcbs, q, start, i)} ::
      k <= i < (if r.Some? then r.value else |q|) ==> !ReadyAt(tcbs, q, start, i)
    decreases |q| - k
  {
    if k == |q| then None
    else if ReadyAt(tcbs, q, start, k) then Some(k)
    else FirstReady(tcbs, q, start, k + 1)
  }

  function NextReady(s: Sched): (r: Option<nat>)
    requires WellFormed(s)
    ensures r.Some? ==> r.value < |s.tcbs|
  {
    if s.queue == [] then None
    else
      var start := Start(s.queue, s.current);
      match FirstReady(s.tcbs, s.queue, start, 0)
      case Some(k) => Some(s.queue[Turn(|s.queue|, start + k)])
      case None =>
        if s.current.Some? && s.tcbs[s.current.value].state.Ready? then s.current else None
  }

  lemma FirstReadyOffset(tcbs: seq<Tcb>, q: seq<nat>, start: nat, i: nat)
    requires Distinct(q) && (forall k :: 0 <= k < |q| ==> q[k] < |tcbs|)
    requires start < |q| && i in q && tcbs[i].state.Ready?
    ensures var r := FirstReady(tcbs, q, start, 0);
      && r.Some?
      && var x := q[Turn(|q|, start + r.value)];
      x in q && tcbs[x].state.Ready? && Offset(q, start, x) <= Offset(q, start, i)
  {
    OffsetPlace(q, start, i);
    assert ReadyAt(tcbs, q, start, Offset(q, start, i));
    OffsetAt(q, start, FirstReady(tcbs, q, start, 0).value);
  }

  /** The thread chosen is the first ready one going round the queue, whenever there is one. */
  lemma NextReadyFirst(s: Sched, i: nat)
    requires WellFormed(s) && i in s.queue && s.tcbs[i].state.Ready?
    ensures var start := Start(s.queue, s.current); var n := NextReady(s);
      && n.Some? && n.value in s.queue && s.tcbs[n.value].state.Ready?
      && Offset(s.queue, start, n.value) <= Offset(s.queue, start, i)
  {
    FirstReadyOffset(s.tcbs, s.queue, Start(s.queue, s.current), i);
  }

  lemma NextReadyNone(s: Sched)
    requires WellFormed(s) && (forall i :: i in s.queue ==> !s.tcbs[i].state.Ready?)
    ensures NextReady(s) == if s.queue != [] && s.current.Some? && s.tcbs[s.current.value].state.Ready? then s.current else None
  {
  }

  // ---- one timer tick -----------------------------------------------------------------

  /** The process that a pid names: the first active entry that carries it. */
  function FindProc(procs: seq<Pcb>, pid: nat): (r: Option<nat>)
    ensures r.Some? ==> r.value < |procs| && procs[r.value].active && procs[r.value].pid == pid
    ensures forall k :: 0 <= k < (if r.Some? then r.value else |procs|) ==> !(procs[k].active && procs[k].pid == pid)
  {
    FindProcFrom(procs, pid, 0)
  }

  function FindProcFrom(procs: seq<Pcb>, pid: nat, i: nat): (r: Option<nat>)
    requires i <= |procs|
    ensures r.Some? ==> i <= r.value < |procs| && procs[r.value].active && procs[r.value].pid == pid
    ensures forall k :: i <= k < (if r.Some? then r.value else |procs|) ==> !(procs[k].active && procs[k].pid == pid)
    decreases |procs| - i
  {
    if i == |procs| then None
    else if procs[i].active && procs[i].pid == pid then Some(i)
    else FindProcFrom(procs, pid, i + 1)
  }

  /** The address space a switch from thread a to thread b loads. */
  function SwitchedCr3(s: Sched, a: Tcb, b: Tcb): Word {
    if a.pid == b.pid then s.cr3
    else match FindProc(s.procs, b.pid)
      case Some(p) => if s.procs[p].pageDir != 0 then s.procs[p].pageDir else s.cr3
      case None => s.cr3
  }

  /** The outgoing thread after its context is recorded and its quantum charged. */
  function Charged(t: Tcb, ctx: Word): Tcb {
    t.(saved := ctx,
       state := if t.state.Running? then Ready else t.state,
       quantum := if t.quantum > 0 then t.quantum - 1 else t.quantum)
  }

  function Charge(s: Sched, ctx: Word): (r: Sched)
    requires WellFormed(s) && s.current.Some?
    ensures WellFormed(r)
  {
    var c := s.current.value;
    s.(ticks := s.ticks + 1, tcbs := s.tcbs[c := Charged(s.tcbs[c], ctx)])
  }

  predicate KeepsProcessor(t: Tcb) {
    t.quantum > 0 && t.state.Ready?
  }

  /** The current thread goes on with quantum q. */
  function Resume(s: Sched, q: int): Sched
    requires WellFormed(s) && s.current.Some?
  {
    var c := s.current.value;
    s.(tcbs := s.tcbs[c := s.tcbs[c].(quantum := q, state := Running)])
  }

  /** The processor goes from thread c to thread n. */
  function Dispatch(s: Sched, c: nat, n: nat): Sched
    requires c < |s.tcbs| && n < |s.tcbs|
  {
    s.(tcbs := s.tcbs[n := s.tcbs[n].(quantum := QUANTUM, state := Running)],
       current := Some(n),
       running := Some(n),
       switches := s.switches + 1,
       cr3 := SwitchedCr3(s, s.tcbs[c], s.tcbs[n]),
       esp0 := s.tcbs[n].stackTop)
  }

  /** The dispatcher: given the stack pointer of the interrupted thread, the new state and the
      stack pointer to resume from. */
  function Tick(s: Sched, ctx: Word): (r: (Sched, Word))
    requires WellFormed(s)
    ensures WellFormed(r.0) && |r.0.tcbs| == |s.tcbs|
  {
    if s.current.None? then (s.(ticks := s.ticks + 1), ctx)
    else
      var s1 := Charge(s, ctx);
      var c := s.current.value;
      if KeepsProcessor(s1.tcbs[c]) then (Resume(s1, s1.tcbs[c].quantum), ctx)
      else
        var next := NextReady(s1);
        if next.None? || next == s.current then (Resume(s1, QUANTUM), ctx)
        else
          var saved := s1.tcbs[next.value].saved;
          (Dispatch(s1, c, next.value), if saved == 0 then ctx else saved)
  }

  function ClearQuantum(s: Sched): (r: Sched)
    requires WellFormed(s)
    ensures WellFormed(r) && |r.tcbs| == |s.tcbs|
  {
    if s.current.None? then s
    else
      var c := s.current.value;
      s.(tcbs := s.tcbs[c := s.tcbs[c].(quantum := 0)])
  }
  
  /** Everything that can happen to the scheduler between two instants. */
  datatype Step =
    | TimerTick(ctx: Word)
    | Yield(ctx: Word)
    | Exit
    | Stutter                // a thread computes; nothing happens here
    | Spawn(slot: nat, tcb: Tcb, entry: nat, pcb: Pcb)
    | Remove(thread: nat)
    | GiveUp(entry: nat, pcb: Pcb)   // a creation that failed leaves its mark in a process slot

  predicate Schedules(step: Step) { step.TimerTick? || step.Yield? }

  predicate Enabled(s: Sched, idle: nat, step: Step) {
    match step
    case TimerTick(ctx) => ctx != 0
    case Yield(ctx) => ctx != 0
    case Stutter => true
    case Exit => s.running.Some? && s.running.value < |s.tcbs| && s.running != Some(idle)
    case Spawn(i, t, p, pcb) =>
      && i < |s.tcbs| && s.tcbs[i].tid == 0
      && t.tid != 0 && t.state.Ready? && t.saved != 0
      && p < |s.procs| && !s.procs[p].active
      && pcb.active && pcb.pid == t.pid && pcb.pageDir != 0
      && FindProc(s.procs, t.pid).None?
    case Remove(i) => i != idle
    case GiveUp(p, pcb) => p < |s.procs| && !s.procs[p].active && !pcb.active
  }

  function Apply(s: Sched, idle: nat, step: Step): (r: Sched)
    requires WellFormed(s) && Enabled(s, idle, step)
    ensures |r.tcbs| == |s.tcbs|
  {
    match step
    case TimerTick(ctx) => Tick(s, ctx).0
    case Yield(ctx) => Tick(ClearQuantum(s), ctx).0
    case Stutter => s
    case Exit => s.(tcbs := s.tcbs[s.running.value := s.tcbs[s.running.value].(state := Dead)])
    case Spawn(i, t, p, pcb) => s.(tcbs := s.tcbs[i := t], procs := s.procs[p := pcb], queue := s.queue + [i])
    case Remove(i) => s.(queue := Without(s.queue, i))
    case GiveUp(p, pcb) => s.(procs := s.procs[p := pcb])
  }

  // ---- the invariant of every run -------------------------------------------------------

  predicate UniquePids(procs: seq<Pcb>) {
    forall j, k :: 0 <= j < k < |procs| && procs[j].active && procs[k].active ==> procs[j].pid != procs[k].pid
  }

  /** Thread i belongs to a live process that has an address space. */
  predicate HasHome(s: Sched, i: nat)
    requires i < |s.tcbs|
  {
    var p := FindProc(s.procs, s.tcbs[i].pid);
    p.Some? && s.procs[p.value].pageDir != 0
  }

  function HomeDir(s: Sched, i: nat): Word
    requires i < |s.tcbs| && HasHome(s, i)
  {
    s.procs[FindProc(s.procs, s.tcbs[i].pid).value].pageDir
  }

  /** A queued thread can be resumed: it was set up, has a saved context and an address space. */
  predicate Resumable(s: Sched, i: nat) {
    i < |s.tcbs| && s.tcbs[i].tid != 0 && s.tcbs[i].saved != 0 && HasHome(s, i)
  }

  /** What holds of the scheduler at any instant, quantum aside. */
  predicate Core(s: Sched, idle: nat) {
    && WellFormed(s)
    && UniquePids(s.procs)
    && s.current.Some? && s.current == s.running
    && idle in s.queue && idle < |s.tcbs|
    && (var c := s.current.value;
       && (s.tcbs[c].state.Running? || (s.tcbs[c].state.Dead? && c != idle))
       && (forall i :: 0 <= i < |s.tcbs| && i != c ==> !s.tcbs[i].state.Running?)
       && s.tcbs[c].tid != 0 && HasHome(s, c)
       && s.esp0 == s.tcbs[c].stackTop
       && s.cr3 == HomeDir(s, c)
       && (idle != c ==> s.tcbs[idle].state.Ready?)
       && (forall i :: i in s.queue && i != c ==> Resumable(s, i)))
  }

  /** What holds between any two steps once the scheduler is initialised. */
  predicate Coherent(s: Sched, idle: nat) {
    Core(s, idle) && 1 <= s.tcbs[s.current.value].quantum <= QUANTUM
  }

  /** Half-way through a tick: the context of the interrupted thread is recorded and nobody runs. */
  predicate Suspended(s: Sched, idle: nat) {
    && WellFormed(s)
    && UniquePids(s.procs)
    && s.current.Some? && s.current == s.running
    && idle in s.queue && idle < |s.tcbs| && s.tcbs[idle].state.Ready?
    && (var c := s.current.value;
       && s.tcbs[c].tid != 0 && s.tcbs[c].saved != 0 && HasHome(s, c)
       && s.esp0 == s.tcbs[c].stackTop
       && s.cr3 == HomeDir(s, c))
    && (forall i :: 0 <= i < |s.tcbs| ==> !s.tcbs[i].state.Running?)
    && (forall i :: i in s.queue ==> Resumable(s, i))
  }

  /** The state right after a tick: the one running thread is the current one. */
  predicate Settled(s: Sched) {
    && WellFormed(s)
    && s.current.Some? && s.current == s.running
    && (forall i :: 0 <= i < |s.tcbs| ==> (s.tcbs[i].state.Running? <==> s.current == Some(i)))
    && 1 <= s.tcbs[s.current.value].quantum <= QUANTUM
    && s.esp0 == s.tcbs[s.current.value].stackTop
    && HasHome(s, s.current.value) && s.cr3 == HomeDir(s, s.current.value)
  }

  /** With unique pids a lookup finds an entry exactly when the entry is active with that pid. */
  lemma FindProcExact(procs: seq<Pcb>, k: nat)
    requires UniquePids(procs) && k < |procs| && procs[k].active
    ensures FindProc(procs, procs[k].pid) == Some(k)
  {
    assert forall j :: 0 <= j < |procs| && j != k && procs[j].active ==> procs[j].pid != procs[k].pid;
  }

  lemma ChargeSuspends(s: Sched, idle: nat, ctx: Word)
    requires ctx != 0 && Core(s, idle)
    ensures Suspended(Charge(s, ctx), idle)
  {
    var s1 := Charge(s, ctx);
    forall i | i in s.queue ensures Resumable(s1, i) {
      assert i == s.current.value || Resumable(s, i);
      assert i == s.queue[IndexOf(s.queue, i)];
    }
  }

  lemma ResumeCoherent(s: Sched, idle: nat, q: int)
    requires Suspended(s, idle) && 1 <= q <= QUANTUM
    ensures Coherent(Resume(s, q), idle) && Settled(Resume(s, q))
  {
    var s' := Resume(s, q);
    forall i | i in s'.queue ensures Resumable(s', i) {
      assert Resumable(s, i);
    }
  }

  lemma DispatchCoherent(s: Sched, idle: nat, n: nat)
    requires Suspended(s, idle) && n in s.queue && n != s.current.value
    ensures n < |s.tcbs| && Coherent(Dispatch(s, s.current.value, n), idle)
    ensures Settled(Dispatch(s, s.current.value, n))
  {
    assert Resumable(s, n);
    var s' := Dispatch(s, s.current.value, n);
    assert HomeDir(s', n) == s'.cr3;
    forall i | i in s'.queue ensures Resumable(s', i) {
      assert Resumable(s, i);
    }
  }

  /** One dispatch keeps the invariant, whatever the stack pointer it is handed, also when a
      voluntary yield has cleared the quantum first; and it settles the state. */
  lemma TickCoherent(s: Sched, idle: nat, ctx: Word)
    requires ctx != 0 && Core(s, idle) && 0 <= s.tcbs[s.current.value].quantum <= QUANTUM
    ensures Coherent(Tick(s, ctx).0, idle) && Settled(Tick(s, ctx).0)
  {
    ChargeSuspends(s, idle, ctx);
    var s1 := Charge(s, ctx);
    var t := s1.tcbs[s.current.value];
    if KeepsProcessor(t) {
      ResumeCoherent(s1, idle, t.quantum);
    } else {
      NextReadyFirst(s1, idle);
      if NextReady(s1) == s.current {
        ResumeCoherent(s1, idle, QUANTUM);
      } else {
        DispatchCoherent(s1, idle, NextReady(s1).value);
      }
    }
  }

  lemma ClearQuantumCore(s: Sched, idle: nat)
    requires Core(s, idle)
    ensures Core(ClearQuantum(s), idle) && ClearQuantum(s).tcbs[s.current.value].quantum == 0
  {
    var y := ClearQuantum(s);
    forall i | i in y.queue && i != y.current.value ensures Resumable(y, i) {
      assert Resumable(s, i);
    }
  }

  lemma YieldCoherent(s: Sched, idle: nat, ctx: Word)
    requires ctx != 0 && Coherent(s, idle)
    ensures Coherent(Tick(ClearQuantum(s), ctx).0, idle) && Settled(Tick(ClearQuantum(s), ctx).0)
  {
    ClearQuantumCore(s, idle);
    TickCoherent(ClearQuantum(s), idle, ctx);
  }

  lemma ExitCoherent(s: Sched, idle: nat)
    requires Coherent(s, idle) && Enabled(s, idle, Exit)
    ensures Coherent(Apply(s, idle, Exit), idle)
  {
    var s' := Apply(s, idle, Exit);
    forall i | i in s'.queue && i != s.current.value ensures Resumable(s', i) {
      assert Resumable(s, i);
    }
  }

  lemma RemoveCoherent(s: Sched, idle: nat, x: nat)
    requires Coherent(s, idle) && x != idle
    ensures Coherent(Apply(s, idle, Remove(x)), idle)
  {
    WithoutKeeps(s.queue, x, idle);
    var s' := Apply(s, idle, Remove(x));
    forall i | i in s'.queue && i != s.current.value ensures Resumable(s', i) {
      assert i in s.queue && Resumable(s, i);
    }
  }

  lemma SpawnCoherent(s: Sched, idle: nat, i: nat, t: Tcb, p: nat, pcb: Pcb)
    requires Coherent(s, idle) && Enabled(s, idle, Spawn(i, t, p, pcb))
    ensures Coherent(Apply(s, idle, Spawn(i, t, p, pcb)), idle)
  {
    var c := s.current.value;
    var s' := Apply(s, idle, Spawn(i, t, p, pcb));
    assert i != c && (i in s.queue ==> Resumable(s, i));
    AppendDistinct(s.queue, i);
    assert UniquePids(s'.procs);
    forall j | 0 <= j < |s.tcbs| && j != i && HasHome(s, j)
      ensures HasHome(s', j) && HomeDir(s', j) == HomeDir(s, j)
    {
      FindProcExact(s'.procs, FindProc(s.procs, s.tcbs[j].pid).value);
    }
    FindProcExact(s'.procs, p);
    forall j | j in s'.queue && j != c ensures Resumable(s', j) {
      assert j == i || (j in s.queue && Resumable(s, j));
    }
  }

  lemma GiveUpCoherent(s: Sched, idle: nat, p: nat, pcb: Pcb)
    requires Coherent(s, idle) && Enabled(s, idle, GiveUp(p, pcb))
    ensures Coherent(Apply(s, idle, GiveUp(p, pcb)), idle)
  {
    var s' := Apply(s, idle, GiveUp(p, pcb));
    forall j | 0 <= j < |s.tcbs| && HasHome(s, j)
      ensures HasHome(s', j) && HomeDir(s', j) == HomeDir(s, j)
    {
      FindProcExact(s'.procs, FindProc(s.procs, s.tcbs[j].pid).value);
    }
    forall j | j in s'.queue && j != s.current.value ensures Resumable(s', j) {
      assert Resumable(s, j);
    }
  }

  lemma StepCoherent(s: Sched, idle: nat, step: Step)
    requires Coherent(s, idle) && Enabled(s, idle, step)
    ensures Coherent(Apply(s, idle, step), idle)
    ensures Schedules(step) ==> Settled(Apply(s, idle, step))
  {
    match step
    case TimerTick(ctx) => TickCoherent(s, idle, ctx);
    case Yield(ctx) => YieldCoherent(s, idle, ctx);
    case Exit => ExitCoherent(s, idle);
    case Stutter =>
    case Spawn(i, t, p, pcb) => SpawnCoherent(s, idle, i, t, p, pcb);
    case Remove(i) => RemoveCoherent(s, idle, i);
    case GiveUp(p, pcb) => GiveUpCoherent(s, idle, p, pcb);
  }

  // ---- runs -----------------------------------------------------------------------------

  predicate Follows(s: Sched, idle: nat, step: Step, s': Sched) {
    WellFormed(s) && Enabled(s, idle, step) && s' == Apply(s, idle, step)
  }

  /** A run: states ss, each following from the one before by the step between them. */
  predicate Trace(ss: seq<Sched>, idle: nat, steps: seq<Step>) {
    && |ss| == |steps| + 1
    && Coherent(ss[0], idle)
    && forall k {:trigger steps[k]} :: 0 <= k < |steps| ==> Follows(ss[k], idle, steps[k], ss[k + 1])
  }

  /** The invariant holds at every instant of every run, and right after every entry into the
      dispatcher exactly one thread runs. */
  lemma {:induction false} TraceCoherent(ss: seq<Sched>, idle: nat, steps: seq<Step>, k: nat)
    requires Trace(ss, idle, steps) && k < |ss|
    ensures Coherent(ss[k], idle)
    ensures k > 0 && Schedules(steps[k - 1]) ==> Settled(ss[k])
    decreases k
  {
    if k > 0 {
      TraceCoherent(ss, idle, steps, k - 1);
      assert Follows(ss[k - 1], idle, steps[k - 1], ss[k]);
      StepCoherent(ss[k - 1], idle, steps[k - 1]);
    }
  }

  // ---- dead threads ---------------------------------------------------------------------

  /** Exactly when a tick gives a thread that has exited the processor again: no queued thread
      is ready.  (The test is the one a caller can make beforehand.) */
  lemma DeadRevivedIff(s: Sched, ctx: Word)
    requires WellFormed(s) && s.current.Some? && s.tcbs[s.current.value].state.Dead?
    ensures var c := s.current.value;
      Tick(s, ctx).0.tcbs[c].state.Running? <==> forall i :: i in s.queue ==> !s.tcbs[i].state.Ready?
  {
    var s1 := Charge(s, ctx);
    if i :| i in s.queue && s.tcbs[i].state.Ready? {
      NextReadyFirst(s1, i);
    } else {
      NextReadyNone(s1);
    }
  }

  /** What one tick does to the threads: the interrupted one records its context, and the result
      is either that same context, or the non-NULL context of a queued thread that gets the
      processor; nobody else's record changes. */
  predicate TickEffect(s: Sched, ctx: Word, s': Sched, r: Word)
    requires s.current.Some? && s.current.value < |s.tcbs|
  {
    var c := s.current.value;
    && |s'.tcbs| == |s.tcbs| && s'.queue == s.queue && s'.procs == s.procs
    && s'.current.Some? && s'.current.value < |s.tcbs|
    && (if s'.current == s.current then r == ctx
        else
          && s'.current.value in s.queue && s.tcbs[s'.current.value].state.Ready?
          && r == s.tcbs[s'.current.value].saved && r != 0
          && s'.tcbs[c].state == Charged(s.tcbs[c], ctx).state)
    && (forall i {:trigger s'.tcbs[i]} :: 0 <= i < |s.tcbs| ==>
        && SameThread(s.tcbs[i], s'.tcbs[i])
        && s'.tcbs[i].saved == (if i == c then ctx else s.tcbs[i].saved)
        && (i == c || s'.current == Some(i) || s'.tcbs[i] == s.tcbs[i]))
  }

  /** The parts of a thread's record that no tick changes. */
  predicate SameThread(t: Tcb, t': Tcb) {
    t'.stackTop == t.stackTop && t'.user == t.user && t'.tid == t.tid && t'.pid == t.pid
  }

  lemma ResumeEffect(s: Sched, ctx: Word, q: int)
    requires WellFormed(s) && s.current.Some?
    ensures TickEffect(s, ctx, Resume(Charge(s, ctx), q), ctx)
  {
  }

  lemma DispatchEffect(s: Sched, ctx: Word, n: nat)
    requires WellFormed(s) && s.current.Some? && n in s.queue && n != s.current.value
    requires n < |s.tcbs| && s.tcbs[n].state.Ready? && s.tcbs[n].saved != 0
    ensures TickEffect(s, ctx, Dispatch(Charge(s, ctx), s.current.value, n), s.tcbs[n].saved)
  {
  }

  lemma TickOutcome(s: Sched, idle: nat, ctx: Word)
    requires ctx != 0 && Core(s, idle)
    ensures TickEffect(s, ctx, Tick(s, ctx).0, Tick(s, ctx).1)
  {
    var s1, c := Charge(s, ctx), s.current.value;
    ResumeEffect(s, ctx, s1.tcbs[c].quantum);
    ResumeEffect(s, ctx, QUANTUM);
    var next := NextReady(s1);
    if !KeepsProcessor(s1.tcbs[c]) && next.Some? && next != s.current {
      ChargeSuspends(s, idle, ctx);
      NextReadyFirst(s1, idle);
      assert Resumable(s1, next.value);
      DispatchEffect(s, ctx, next.value);
    }
  }

  lemma DeadLosesProcessor(s: Sched, idle: nat, ctx: Word)
    requires ctx != 0 && Core(s, idle) && s.tcbs[s.current.value].state.Dead?
    ensures Tick(s, ctx).0.current != s.current
  {
    DeadRevivedIff(s, ctx);
    assert idle in s.queue;
  }

  lemma DeadStaysDeadTick(s: Sched, idle: nat, ctx: Word, i: nat)
    requires ctx != 0 && Core(s, idle) && i < |s.tcbs| && s.tcbs[i].state.Dead?
    ensures var s' := Tick(s, ctx).0; i < |s'.tcbs| && s'.tcbs[i].state.Dead? && s'.tcbs[i].tid == s.tcbs[i].tid
  {
    TickOutcome(s, idle, ctx);
    if s.current == Some(i) {
      DeadLosesProcessor(s, idle, ctx);
    }
    assert SameThread(s.tcbs[i], Tick(s, ctx).0.tcbs[i]);
  }

  lemma DeadStaysDeadOneStep(s: Sched, idle: nat, step: Step, i: nat)
    requires Coherent(s, idle) && Enabled(s, idle, step)
    requires i < |s.tcbs| && s.tcbs[i].state.Dead? && s.tcbs[i].tid != 0
    ensures var s' := Apply(s, idle, step);
      i < |s'.tcbs| && s'.tcbs[i].state.Dead? && s'.tcbs[i].tid != 0
  {
    match step
    case TimerTick(ctx) => DeadStaysDeadTick(s, idle, ctx, i);
    case Yield(ctx) =>
      ClearQuantumCore(s, idle);
      DeadStaysDeadTick(ClearQuantum(s), idle, ctx, i);
    case Exit =>
    case Stutter =>
    case Spawn(_, _, _, _) =>
    case Remove(_) =>
    case GiveUp(_, _) =>
  }

  /** In every run a thread that is dead at one instant is dead at every later one. */
  lemma {:induction false} DeadStaysDead(ss: seq<Sched>, idle: nat, steps: seq<Step>, j: nat, k: nat, i: nat)
    requires Trace(ss, idle, steps) && j <= k < |ss|
    requires i < |ss[j].tcbs| && ss[j].tcbs[i].state.Dead? && ss[j].tcbs[i].tid != 0
    ensures i < |ss[k].tcbs| && ss[k].tcbs[i].state.Dead? && ss[k].tcbs[i].tid != 0
    decreases k
  {
    if j < k {
      DeadStaysDead(ss, idle, steps, j, k - 1, i);
      TraceCoherent(ss, idle, steps, k - 1);
      assert Follows(ss[k - 1], idle, steps[k - 1], ss[k]);
      DeadStaysDeadOneStep(ss[k - 1], idle, steps[k - 1], i);
    }
  }
}
