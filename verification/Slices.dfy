/** On the whole machine: how long a thread keeps the processor, and that one that has exited is done. */
module Slices {
  import opened Basics
  import opened SchedulerSpec
  import opened Machine
  import opened Runs
  import opened Quanta

  lemma ExitKills(m: Machine, idle: nat, e: Event, m': Machine, i: nat)
    requires Sound(m, idle) && Next(m, idle, e, m') && e.ExitThread? && m.sched.current == Some(i)
    ensures var s := m'.sched; i < |s.tcbs| && s.tcbs[i].state.Dead? && s.tcbs[i].tid != 0
  {
  }

  lemma ExitKillsAt(ms: seq<Machine>, idle: nat, es: seq<Event>, i: nat, j: nat, j': nat)
    requires Run(ms, idle, es) && j < |es| && j' == j + 1 && es[j].ExitThread? && ms[j].sched.current == Some(i)
    ensures var s := ms[j'].sched; i < |s.tcbs| && s.tcbs[i].state.Dead? && s.tcbs[i].tid != 0
  {
    RunKeeps(ms, idle, es, j);
    ExitKills(ms[j], idle, es[j], ms[j'], i);
  }

  /** A thread that exits at event j never has the processor at the end of an interrupt again. */
  lemma ExitedForever(ms: seq<Machine>, idle: nat, es: seq<Event>, i: nat, j: nat, k: nat)
    requires Run(ms, idle, es) && j < k < |es| && (es[k].Interrupt? || es[k].Trap?)
    requires es[j].ExitThread? && ms[j].sched.current == Some(i)
    ensures ms[k + 1].sched.current != Some(i)
  {
    var j' := j + 1;
    ExitKillsAt(ms, idle, es, i, j, j');
    DeadForever(ms, idle, es, i, j', k);
  }

  /** Timer interrupts among events j up to k. */
  function Interrupts(es: seq<Event>, j: nat, k: nat): nat
    requires j <= k <= |es|
  {
    if j == k then 0 else Interrupts(es, j, k - 1) + (if es[k - 1].Interrupt? then 1 else 0)
  }

  predicate Projectable(ms: seq<Machine>, es: seq<Event>) {
    |ms| == |es| + 1 && forall x :: 0 <= x < |es| ==> Interruptible(ms[x])
  }

  lemma {:induction false} InterruptsAreTicks(ms: seq<Machine>, es: seq<Event>, j: nat, k: nat)
    requires Projectable(ms, es) && j <= k <= |es|
    ensures TimerTicks(Projections(ms, es), j, k) == Interrupts(es, j, k)
    decreases k
  {
    if j < k {
      InterruptsAreTicks(ms, es, j, k - 1);
    }
  }

  lemma GivesUpNothing(ms: seq<Machine>, es: seq<Event>, j: nat, k: nat)
    requires Projectable(ms, es) && j <= k <= |es|
    requires forall x {:trigger es[x]} :: j <= x < k ==> !es[x].Trap? && !es[x].ExitThread?
    ensures NoneGivesUp(Projections(ms, es), j, k)
  {
    var steps := Projections(ms, es);
    forall x {:trigger steps[x]} | j <= x < k ensures !steps[x].Yield? && !steps[x].Exit? {
      assert !es[x].Trap? && !es[x].ExitThread?;
    }
  }

  lemma SliceHeldBy(ss: seq<Sched>, idle: nat, steps: seq<Step>, c: nat, j: nat, j': nat, k: nat)
    requires Trace(ss, idle, steps) && j' == j + 1 <= k < |ss| && ss[j].current != Some(c) && ss[j'].current == Some(c)
    requires NoneGivesUp(steps, j', k) && TimerTicks(steps, j', k) <= 9
    ensures ss[k].current == Some(c)
  {
    FullSlice(ss, idle, steps, j, k);
  }

  /** A thread that is given the processor at event j, and neither yields nor exits, still has it after each of
      the next nine timer interrupts, whatever work is done and whatever is created meanwhile. */
  lemma SliceOnMachine(ms: seq<Machine>, idle: nat, es: seq<Event>, c: nat, j: nat, j': nat, k: nat)
    requires Run(ms, idle, es) && j' == j + 1 <= k < |ms| && ms[j].sched.current != Some(c) && ms[j'].sched.current == Some(c)
    requires forall x {:trigger es[x]} :: j' <= x < k ==> !es[x].Trap? && !es[x].ExitThread?
    requires Interrupts(es, j', k) <= 9
    ensures ms[k].sched.current == Some(c)
  {
    RunProjects(ms, idle, es);
    InterruptsAreTicks(ms, es, j', k);
    GivesUpNothing(ms, es, j', k);
    SliceHeldBy(Scheds(ms), idle, Projections(ms, es), c, j, j', k);
  }
}
