/**
 What a tick does, case by case, and how long a thread keeps the processor. Every case is stated on the
 fields alone.
 */
module Quanta {
  import opened Basics
  import opened SchedulerSpec
  import opened Liveness

  // ---- one tick -----------------------------------------------------------------------------------

  /** A queued thread other than the current one is ready. */
  predicate OtherReady(s: Sched) {
    exists k {:trigger s.queue[k]} :: 0 <= k < |s.queue|
      && s.current != Some(s.queue[k]) && s.queue[k] < |s.tcbs| && s.tcbs[s.queue[k]].state.Ready?
  }

  /** The current thread has more than one tick left to run. */
  predicate HasTime(s: Sched)
    requires s.current.Some? && s.current.value < |s.tcbs|
  {
    var t := s.tcbs[s.current.value];
    (t.state.Running? || t.state.Ready?) && t.quantum >= 2
  }

  /** Before the scheduler is initialised a tick is counted and the interrupted context goes on. */
  lemma TickEarly(s: Sched, ctx: Word)
    requires WellFormed(s) && s.current.None?
    ensures Tick(s, ctx) == (s.(ticks := s.ticks + 1), ctx)
  {
  }

  /** A thread with time left goes on: its context is recorded, its quantum is one less, and nothing else
      changes but the count of ticks. */
  lemma TickKeeps(s: Sched, ctx: Word)
    requires WellFormed(s) && s.current.Some? && HasTime(s)
    ensures var c := s.current.value; var t := s.tcbs[c];
      Tick(s, ctx) == (s.(ticks := s.ticks + 1, tcbs := s.tcbs[c := t.(saved := ctx, state := Running, quantum := t.quantum - 1)]), ctx)
  {
    var c := s.current.value;
    SetTwice(s.tcbs, c, Charged(s.tcbs[c], ctx), s.tcbs[c].(saved := ctx, state := Running, quantum := s.tcbs[c].quantum - 1));
  }

  /** A thread without time left goes on all the same when no other is ready, with ten ticks more. */
  lemma TickAlone(s: Sched, ctx: Word)
    requires WellFormed(s) && s.current.Some? && !HasTime(s) && !OtherReady(s)
    ensures var c := s.current.value; var t := s.tcbs[c];
      Tick(s, ctx) == (s.(ticks := s.ticks + 1, tcbs := s.tcbs[c := t.(saved := ctx, state := Running, quantum := 10)]), ctx)
  {
    var s1, c := Charge(s, ctx), s.current.value;
    SetTwice(s.tcbs, c, Charged(s.tcbs[c], ctx), s.tcbs[c].(saved := ctx, state := Running, quantum := 10));
    var next := NextReady(s1);
    if next.Some? && next != s.current {
      NextIsQueued(s1);
    }
  }

  lemma NextIsQueued(s: Sched)
    requires WellFormed(s) && NextReady(s).Some? && NextReady(s) != s.current
    ensures NextReady(s).value in s.queue && s.tcbs[NextReady(s).value].state.Ready?
  {
  }

  /** Thread n comes first, after the current one, going round the queue; from the head when the current
      thread is not queued. */
  predicate FirstAfter(q: seq<nat>, tcbs: seq<Tcb>, c: nat, n: nat)
    requires forall i :: 0 <= i < |q| ==> q[i] < |tcbs|
  {
    if c in q then
      exists k: nat, j: nat {:trigger GoesRound(q, tcbs, k, j, n)} :: k < |q| && q[k] == c && 1 <= j < |q| && GoesRound(q, tcbs, k, j, n)
    else
      exists k: nat, j: nat {:trigger GoesRound(q, tcbs, k, j, n)} :: k + 1 == |q| && 1 <= j <= |q| && GoesRound(q, tcbs, k, j, n)
  }

  /** The thread i places after place k, round the end. */
  function After(q: seq<nat>, k: nat, i: nat): nat
    requires k < |q| && i <= |q|
  {
    if k + i < |q| then q[k + i] else q[k + i - |q|]
  }

  /** Thread n is j places after place k and ready; no thread between them is. */
  predicate GoesRound(q: seq<nat>, tcbs: seq<Tcb>, k: nat, j: nat, n: nat)
    requires forall i :: 0 <= i < |q| ==> q[i] < |tcbs|
  {
    && k < |q| && j <= |q| && After(q, k, j) == n && tcbs[n].state.Ready?
    && forall i: nat {:trigger After(q, k, i)} :: 1 <= i < j ==> !tcbs[After(q, k, i)].state.Ready?
  }

  /** The directory of the first active process with this pid, if that is set; else the one that is loaded. */
  predicate LoadsSpaceOf(s: Sched, pid: nat, cr3: Word) {
    || (exists k {:trigger s.procs[k]} :: 0 <= k < |s.procs| && s.procs[k].active && s.procs[k].pid == pid
          && (forall i :: 0 <= i < k ==> !(s.procs[i].active && s.procs[i].pid == pid))
          && cr3 == if s.procs[k].pageDir != 0 then s.procs[k].pageDir else s.cr3)
    || ((forall i :: 0 <= i < |s.procs| ==> !(s.procs[i].active && s.procs[i].pid == pid)) && cr3 == s.cr3)
  }

  /** A thread without time left loses the processor when another is ready, to the next such thread: that one
      runs with ten ticks, its stack in ESP0, its process's directory in CR3; the loser is ready if it was
      running, with its context recorded. */
  lemma TickSwitches(s: Sched, ctx: Word) returns (n: nat)
    requires WellFormed(s) && s.current.Some? && !HasTime(s) && OtherReady(s)
    ensures n in s.queue && n < |s.tcbs| && n != s.current.value && FirstAfter(s.queue, s.tcbs, s.current.value, n)
    ensures var c := s.current.value; var t := s.tcbs[c]; var (s', r) := Tick(s, ctx);
      && s'.tcbs == s.tcbs[c := t.(saved := ctx, state := if t.state.Running? then Ready else t.state,
                                   quantum := if t.quantum > 0 then t.quantum - 1 else t.quantum)]
                          [n := s.tcbs[n].(state := Running, quantum := 10)]
      && s'.current == Some(n) && s'.running == Some(n) && s'.queue == s.queue && s'.procs == s.procs
      && s'.switches == s.switches + 1 && s'.ticks == s.ticks + 1 && s'.esp0 == s.tcbs[n].stackTop
      && (if s.tcbs[n].pid == t.pid then s'.cr3 == s.cr3 else LoadsSpaceOf(s, s.tcbs[n].pid, s'.cr3))
      && r == if s.tcbs[n].saved == 0 then ctx else s.tcbs[n].saved
  {
    var s1, c := Charge(s, ctx), s.current.value;
    var x := Other(s, c);
    n := NextOther(s1, s.tcbs, c, x);
  }

  lemma Other(s: Sched, c: nat) returns (x: nat)
    requires WellFormed(s) && s.current == Some(c) && OtherReady(s)
    ensures x in s.queue && x < |s.tcbs| && x != c && s.tcbs[x].state.Ready?
  {
    var k :| 0 <= k < |s.queue| && s.current != Some(s.queue[k]) && s.queue[k] < |s.tcbs| && s.tcbs[s.queue[k]].state.Ready?;
    x := s.queue[k];
  }

  /** While another thread x is ready the search finds one, whatever becomes of the current thread c. */
  lemma NextOther(s: Sched, tcbs: seq<Tcb>, c: nat, x: nat) returns (n: nat)
    requires WellFormed(s) && s.current == Some(c) && |tcbs| == |s.tcbs|
    requires forall i :: 0 <= i < |s.tcbs| && i != c ==> s.tcbs[i] == tcbs[i]
    requires x in s.queue && x != c && s.tcbs[x].state.Ready?
    ensures NextReady(s) == Some(n) && n != c && n in s.queue && n < |s.tcbs| && FirstAfter(s.queue, tcbs, c, n)
  {
    var q, start := s.queue, Start(s.queue, s.current);
    var j := FirstOther(s.tcbs, q, start, c, x);
    n := q[Turn(|q|, start + j)];
    var k, j' := if c in q then IndexOf(q, c) else |q| - 1, j + 1;
    FoundGoesRound(s.tcbs, tcbs, q, start, c, k, j, j');
    IsFirstAfter(q, tcbs, c, k, j', n);
  }

  /** The search finds another thread, and finds it before it has gone round to the current one. */
  lemma FirstOther(tcbs: seq<Tcb>, q: seq<nat>, start: nat, c: nat, x: nat) returns (j: nat)
    requires Distinct(q) && (forall i :: 0 <= i < |q| ==> q[i] < |tcbs|)
    requires x in q && tcbs[x].state.Ready? && x != c && start == Start(q, Some(c))
    ensures FirstReady(tcbs, q, start, 0) == Some(j) && j < |q| && q[Turn(|q|, start + j)] != c
    ensures c in q ==> j + 1 < |q| && Offset(q, start, c) == |q| - 1
  {
    FirstReadyOffset(tcbs, q, start, x);
    j := FirstReady(tcbs, q, start, 0).value;
    OffsetAt(q, start, j);
    if c in q {
      CurrentComesLast(q, c);
      OffsetBelow(q, start, c, x);
    }
  }

  lemma IsFirstAfter(q: seq<nat>, tcbs: seq<Tcb>, c: nat, k: nat, j: nat, n: nat)
    requires forall i :: 0 <= i < |q| ==> q[i] < |tcbs|
    requires k < |q| && 1 <= j && GoesRound(q, tcbs, k, j, n)
    requires if c in q then q[k] == c && j < |q| else k + 1 == |q| && j <= |q|
    ensures FirstAfter(q, tcbs, c, n)
  {
  }

  lemma FoundGoesRound(tcbs: seq<Tcb>, tcbs0: seq<Tcb>, q: seq<nat>, start: nat, c: nat, k: nat, j: nat, j': nat)
    requires Distinct(q) && |tcbs| == |tcbs0| && (forall i :: 0 <= i < |q| ==> q[i] < |tcbs|)
    requires forall x :: 0 <= x < |tcbs| && x != c ==> tcbs[x] == tcbs0[x]
    requires k < |q| && start == (if k + 1 < |q| then k + 1 else 0) && j' == j + 1 <= |q|
    requires FirstReady(tcbs, q, start, 0) == Some(j) && q[Turn(|q|, start + j)] != c
    requires c in q ==> j' < |q| && Offset(q, start, c) == |q| - 1
    ensures GoesRound(q, tcbs0, k, j', q[Turn(|q|, start + j)])
  {
    forall i: nat {:trigger After(q, k, i)} | 1 <= i < j' ensures !tcbs0[After(q, k, i)].state.Ready? {
      Passed(tcbs, tcbs0, q, start, c, k, i, i - 1, j);
    }
    assert ReadyAt(tcbs, q, start, j);
  }

  lemma Passed(tcbs: seq<Tcb>, tcbs0: seq<Tcb>, q: seq<nat>, start: nat, c: nat, k: nat, i: nat, p: nat, j: nat)
    requires Distinct(q) && |tcbs| == |tcbs0| && (forall i :: 0 <= i < |q| ==> q[i] < |tcbs|)
    requires forall x :: 0 <= x < |tcbs| && x != c ==> tcbs[x] == tcbs0[x]
    requires k < |q| && start == (if k + 1 < |q| then k + 1 else 0) && j < |q|
    requires FirstReady(tcbs, q, start, 0) == Some(j) && i == p + 1 && p < j
    requires c in q ==> j + 1 < |q| && Offset(q, start, c) == |q| - 1
    ensures !tcbs0[After(q, k, i)].state.Ready?
  {
    OffsetAt(q, start, p);
    assert !ReadyAt(tcbs, q, start, p);
  }

  lemma OffsetBelow(q: seq<nat>, start: nat, c: nat, x: nat)
    requires Distinct(q) && start < |q| && c in q && x in q && x != c && Offset(q, start, c) == |q| - 1
    ensures Offset(q, start, x) < |q| - 1
  {
    OffsetPlace(q, start, x);
    OffsetPlace(q, start, c);
  }

  lemma SetTwice(tcbs: seq<Tcb>, c: nat, t: Tcb, t': Tcb)
    requires c < |tcbs|
    ensures tcbs[c := t][c := t'] == tcbs[c := t']
  {
  }

  // ---- who loses the processor ----------------------------------------------------------------------

  /** A running thread loses the processor at a tick exactly when it has at most one tick left and another
      queued thread is ready; otherwise it runs on in its own context, with one tick less or ten more. */
  lemma LosesIff(s: Sched, ctx: Word)
    requires WellFormed(s) && s.current.Some? && s.tcbs[s.current.value].state.Running?
    ensures var c := s.current.value; var q := s.tcbs[c].quantum; var (s', r) := Tick(s, ctx);
      && (s'.current != s.current <==> q <= 1 && OtherReady(s))
      && (s'.current == s.current ==> r == ctx && c < |s'.tcbs| && s'.tcbs[c].state.Running?
                                      && s'.tcbs[c].quantum == if q >= 2 then q - 1 else 10)
  {
    if HasTime(s) {
      TickKeeps(s, ctx);
    } else if OtherReady(s) {
      var n := TickSwitches(s, ctx);
    } else {
      TickAlone(s, ctx);
    }
  }

  /** A yield gives the processor up exactly when another queued thread is ready, however much time is left. */
  lemma YieldSwitchesIff(s: Sched, ctx: Word)
    requires WellFormed(s) && s.current.Some?
    ensures Tick(ClearQuantum(s), ctx).0.current != s.current <==> OtherReady(s)
  {
    var y := ClearQuantum(s);
    assert !HasTime(y) && y.queue == s.queue;
    if OtherReady(s) {
      var x := Other(s, s.current.value);
      assert y.queue[IndexOf(s.queue, x)] == x;
      var n := TickSwitches(y, ctx);
    } else {
      TickAlone(y, ctx);
    }
  }

  // ---- over whole runs ------------------------------------------------------------------------------

  /** Timer ticks among steps j up to k. */
  function TimerTicks(steps: seq<Step>, j: nat, k: nat): nat
    requires j <= k <= |steps|
  {
    if j == k then 0 else TimerTicks(steps, j, k - 1) + (if steps[k - 1].TimerTick? then 1 else 0)
  }

  /** Nobody yields or exits in steps j up to k. */
  predicate NoneGivesUp(steps: seq<Step>, j: nat, k: nat)
    requires j <= k <= |steps|
  {
    forall x {:trigger steps[x]} :: j <= x < k ==> !steps[x].Yield? && !steps[x].Exit?
  }

  /** Thread c runs with q ticks left. */
  predicate RunsWith(s: Sched, c: nat, q: int) {
    s.current == Some(c) && c < |s.tcbs| && s.tcbs[c].state.Running? && s.tcbs[c].quantum == q
  }

  lemma StepHolds(s: Sched, idle: nat, step: Step, c: nat, q: int)
    requires Coherent(s, idle) && Enabled(s, idle, step) && RunsWith(s, c, q)
    requires !step.Yield? && !step.Exit? && (step.TimerTick? ==> q >= 2)
    ensures RunsWith(Apply(s, idle, step), c, if step.TimerTick? then q - 1 else q)
  {
    if step.TimerTick? {
      TickKeeps(s, step.ctx);
    }
  }

  /** A thread that runs with q ticks left and neither yields nor exits keeps the processor for the next
      q - 1 ticks, whatever else happens; each costs it one. */
  lemma {:induction false} SliceHeld(ss: seq<Sched>, idle: nat, steps: seq<Step>, c: nat, q: int, j: nat, k: nat)
    requires Trace(ss, idle, steps) && j <= k < |ss| && RunsWith(ss[j], c, q)
    requires NoneGivesUp(steps, j, k) && TimerTicks(steps, j, k) < q
    ensures RunsWith(ss[k], c, q - TimerTicks(steps, j, k))
    decreases k
  {
    if j < k {
      SliceHeld(ss, idle, steps, c, q, j, k - 1);
      TraceCoherent(ss, idle, steps, k - 1);
      assert Follows(ss[k - 1], idle, steps[k - 1], ss[k - 1 + 1]);
      StepHolds(ss[k - 1], idle, steps[k - 1], c, q - TimerTicks(steps, j, k - 1));
    }
  }

  /** What a step does to the counters and the current thread. */
  lemma StepSwitches(s: Sched, idle: nat, step: Step)
    requires Coherent(s, idle) && Enabled(s, idle, step)
    ensures var s' := Apply(s, idle, step);
      && s'.ticks == s.ticks + (if step.TimerTick? || step.Yield? then 1 else 0)
      && s'.switches == s.switches + (if s'.current != s.current then 1 else 0)
      && (s'.current != s.current ==> s'.current.Some? && RunsWith(s', s'.current.value, 10))
  {
    match step
    case TimerTick(ctx) => TickCounts(s, ctx);
    case Yield(ctx) => TickCounts(ClearQuantum(s), ctx);
    case _ =>
  }

  lemma TickCounts(s: Sched, ctx: Word)
    requires WellFormed(s) && s.current.Some?
    ensures var s' := Tick(s, ctx).0;
      && s'.ticks == s.ticks + 1
      && s'.switches == s.switches + (if s'.current != s.current then 1 else 0)
      && (s'.current != s.current ==> s'.current.Some? && RunsWith(s', s'.current.value, 10))
  {
    if HasTime(s) {
      TickKeeps(s, ctx);
    } else if OtherReady(s) {
      var n := TickSwitches(s, ctx);
    } else {
      TickAlone(s, ctx);
    }
  }

  lemma TraceSwitches(ss: seq<Sched>, idle: nat, steps: seq<Step>, k: nat, k': nat)
    requires Trace(ss, idle, steps) && k < |steps| && k' == k + 1
    ensures ss[k'].ticks == ss[k].ticks + Count(steps[k])
    ensures ss[k'].switches == ss[k].switches + (if ss[k'].current != ss[k].current then 1 else 0)
    ensures ss[k'].current != ss[k].current ==> ss[k'].current.Some? && RunsWith(ss[k'], ss[k'].current.value, 10)
  {
    TraceCoherent(ss, idle, steps, k);
    assert Follows(ss[k], idle, steps[k], ss[k + 1]);
    StepSwitches(ss[k], idle, steps[k]);
  }

  /** The full slice: a thread that is given the processor at step j and neither yields nor exits has it
      through the next nine ticks; at the tenth it loses it exactly when another queued thread is ready. */
  lemma FullSlice(ss: seq<Sched>, idle: nat, steps: seq<Step>, j: nat, k: nat)
    requires Trace(ss, idle, steps) && j < k < |ss| && ss[j + 1].current != ss[j].current
    requires NoneGivesUp(steps, j + 1, k) && TimerTicks(steps, j + 1, k) <= 9
    ensures ss[k].current == ss[j + 1].current
    ensures k < |steps| && steps[k].TimerTick? ==>
      (ss[k + 1].current != ss[k].current <==> TimerTicks(steps, j + 1, k) == 9 && OtherReady(ss[k]))
  {
    TraceSwitches(ss, idle, steps, j, j + 1);
    var c := ss[j + 1].current.value;
    SliceHeld(ss, idle, steps, c, 10, j + 1, k);
    if k < |steps| && steps[k].TimerTick? {
      TraceCoherent(ss, idle, steps, k);
      assert Follows(ss[k], idle, steps[k], ss[k + 1]);
      LosesIff(ss[k], steps[k].ctx);
    }
  }

  /** How often the current thread changes in the first k steps. */
  function Changes(ss: seq<Sched>, k: nat): nat
    requires k < |ss|
  {
    if k == 0 then 0 else Changes(ss, k - 1) + (if ss[k].current != ss[k - 1].current then 1 else 0)
  }

  /** Over every run the tick counter counts the entries into the dispatcher, and the switch counter the
      changes of the current thread. */
  lemma {:induction false} CountersExact(ss: seq<Sched>, idle: nat, steps: seq<Step>, k: nat)
    requires Trace(ss, idle, steps) && k < |ss|
    ensures ss[k].ticks == ss[0].ticks + Ticks(steps, k) && ss[k].switches == ss[0].switches + Changes(ss, k)
    decreases k
  {
    if k > 0 {
      CountersExact(ss, idle, steps, k - 1);
      TraceSwitches(ss, idle, steps, k - 1, k);
    }
  }
}
