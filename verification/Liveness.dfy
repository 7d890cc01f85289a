/** Bounded waiting and fairness of the round-robin dispatcher. */
module Liveness {
  import opened Basics
  import opened SchedulerSpec

  /** How far thread t is behind the current one, going round the queue. */
  function Distance(s: Sched, t: nat): nat
    requires t in s.queue
  {
    Offset(s.queue, Start(s.queue, s.current), t) + 1
  }

  /** An upper bound on the ticks thread t still waits: a full quantum for every thread ahead of
      it, and what the current thread has left. */
  function Wait(s: Sched, t: nat): int
    requires t in s.queue && s.current.Some? && s.current.value < |s.tcbs|
  {
    (Distance(s, t) - 1) * QUANTUM + s.tcbs[s.current.value].quantum
  }

  predicate Waiting(s: Sched, t: nat) {
    && t in s.queue && t < |s.tcbs| && s.tcbs[t].state.Ready?
    && s.current != Some(t) && s.current.Some? && s.current.value < |s.tcbs|
  }

  /** Steps that leave the membership of the queue alone. */
  predicate SameMembers(step: Step) {
    !step.Spawn? && !step.Remove?
  }

  /** How many of the first k steps enter the dispatcher. */
  function Ticks(steps: seq<Step>, k: nat): nat
    requires k <= |steps|
  {
    if k == 0 then 0 else Ticks(steps, k - 1) + Count(steps[k - 1])
  }

  /** Where thread t stands once the processor has gone to thread n ahead of it. */
  lemma OffsetAfterSwitch(q: seq<nat>, start: nat, n: nat, t: nat)
    requires start < |q| && n in q && t in q && n != t
    requires Offset(q, start, n) <= Offset(q, start, t)
    ensures Offset(q, Start(q, Some(n)), t) == Offset(q, start, t) - Offset(q, start, n) - 1
  {
  }

  lemma CurrentComesLast(q: seq<nat>, c: nat)
    requires c in q
    ensures Offset(q, Start(q, Some(c)), c) == |q| - 1
  {
  }

  /** A switch goes to a thread no further than t; without one the quantum shrinks. */
  predicate Advances(s: Sched, s': Sched, t: nat)
    requires s.current.Some? && s.current.value < |s.tcbs| == |s'.tcbs| && t in s.queue
  {
    var c := s.current.value;
    if s'.current == s.current then
      s'.tcbs[c].quantum == s.tcbs[c].quantum - 1
    else
      var start := Start(s.queue, s.current);
      && s'.current.Some? && s'.current.value < |s'.tcbs| && s'.tcbs[s'.current.value].quantum == QUANTUM
      && s'.current.value in s.queue
      && Offset(s.queue, start, s'.current.value) <= Offset(s.queue, start, t)
  }

  lemma TickAdvances(s: Sched, ctx: Word, t: nat)
    requires WellFormed(s) && s.current.Some? && Waiting(s, t)
    ensures |Tick(s, ctx).0.tcbs| == |s.tcbs| && Advances(s, Tick(s, ctx).0, t)
  {
    var s1 := Charge(s, ctx);
    var c := s.current.value;
    NextReadyFirst(s1, t);
    if c in s.queue {
      CurrentComesLast(s.queue, c);
    }
  }

  /** What a tick means for a waiting thread: it has the processor, or the processor went to a
      thread ahead of it and it is nearer, or nobody moved and the current quantum shrank. */
  predicate Nearer(s: Sched, s': Sched, t: nat)
    requires s'.current.Some? && s.current.Some? && s.current.value < |s.tcbs| == |s'.tcbs| && t in s.queue
  {
    || s'.current == Some(t)
    || (&& Waiting(s', t)
        && if s'.current == s.current then
             Distance(s', t) == Distance(s, t)
             && s'.tcbs[s'.current.value].quantum == s.tcbs[s.current.value].quantum - 1
           else
             Distance(s', t) < Distance(s, t) && s'.tcbs[s'.current.value].quantum == QUANTUM)
  }

  lemma EffectBringsNearer(s: Sched, ctx: Word, s': Sched, r: Word, t: nat)
    requires Waiting(s, t)
    requires TickEffect(s, ctx, s', r) && Advances(s, s', t)
    ensures Nearer(s, s', t)
  {
    if s'.current != s.current && s'.current != Some(t) {
      OffsetAfterSwitch(s.queue, Start(s.queue, s.current), s'.current.value, t);
    }
    assert s'.current != Some(t) ==> s'.tcbs[t] == s.tcbs[t];
  }

  /** A tick either gives the waiting thread the processor, or brings it nearer. */
  lemma TickProgress(s: Sched, idle: nat, ctx: Word, t: nat)
    requires ctx != 0 && Core(s, idle) && 0 <= s.tcbs[s.current.value].quantum <= QUANTUM
    requires Waiting(s, t)
    ensures var s' := Tick(s, ctx).0;
      Coherent(s', idle) && |s'.tcbs| == |s.tcbs| && Nearer(s, s', t)
  {
    TickCoherent(s, idle, ctx);
    TickOutcome(s, idle, ctx);
    TickAdvances(s, ctx, t);
    EffectBringsNearer(s, ctx, Tick(s, ctx).0, Tick(s, ctx).1, t);
  }

  /** Thread t still waits in s' as it did in s, n ticks later: its bound has fallen by n or more,
      and it is nearer if the processor has changed hands. */
  predicate Closer(s: Sched, s': Sched, t: nat, n: int)
    requires Waiting(s, t)
  {
    && Waiting(s', t) && s'.queue == s.queue
    && Distance(s', t) <= Distance(s, t)
    && (s'.current != s.current ==> Distance(s', t) < Distance(s, t))
    && Wait(s', t) + n <= Wait(s, t)
  }

  lemma CloserTwice(s: Sched, s': Sched, s'': Sched, t: nat, n: int, n': int, sum: int)
    requires Waiting(s, t) && Closer(s, s', t, n) && Closer(s', s'', t, n') && sum == n + n'
    ensures Closer(s, s'', t, sum)
  {
  }

  function Count(step: Step): nat { if Schedules(step) then 1 else 0 }

  lemma StepProgress(s: Sched, idle: nat, step: Step, t: nat)
    requires Coherent(s, idle) && Enabled(s, idle, step) && SameMembers(step)
    requires Waiting(s, t)
    ensures var s' := Apply(s, idle, step);
      if s'.current == Some(t) then Schedules(step) else Closer(s, s', t, Count(step))
  {
    StepCoherent(s, idle, step);
    match step
    case TimerTick(ctx) =>
      TickProgress(s, idle, ctx, t);
      TickOutcome(s, idle, ctx);
    case Yield(ctx) =>
      ClearQuantumCore(s, idle);
      TickProgress(ClearQuantum(s), idle, ctx, t);
      TickOutcome(ClearQuantum(s), idle, ctx);
    case Exit =>
    case Stutter =>
    case GiveUp(_, _) =>
  }

  lemma TraceProgress(ss: seq<Sched>, idle: nat, steps: seq<Step>, t: nat, k: nat)
    requires Trace(ss, idle, steps) && k < |steps| && SameMembers(steps[k]) && Waiting(ss[k], t)
    ensures if ss[k + 1].current == Some(t) then Settled(ss[k + 1]) else Closer(ss[k], ss[k + 1], t, Count(steps[k]))
  {
    TraceCoherent(ss, idle, steps, k);
    TraceCoherent(ss, idle, steps, k + 1);
    assert Follows(ss[k], idle, steps[k], ss[k + 1]);
    StepProgress(ss[k], idle, steps[k], t);
  }

  /** Thread t waits from instant j to instant k, and nobody joins or leaves the queue. */
  predicate KeptWaiting(ss: seq<Sched>, steps: seq<Step>, t: nat, j: nat, k: nat)
    requires j <= k < |ss| == |steps| + 1
  {
    && Waiting(ss[j], t)
    && (forall i :: j <= i < k ==> SameMembers(steps[i]))
    && (forall i :: j < i <= k ==> ss[i].current != Some(t))
  }

  /** While a ready thread is kept waiting, its bound shrinks with every tick, and its distance with
      every change of the current thread. */
  lemma {:induction false} WaitShrinks(ss: seq<Sched>, idle: nat, steps: seq<Step>, t: nat, j: nat, k: nat)
    requires Trace(ss, idle, steps) && j <= k < |ss| && KeptWaiting(ss, steps, t, j, k)
    ensures Closer(ss[j], ss[k], t, Ticks(steps, k) - Ticks(steps, j))
    decreases k
  {
    if j < k {
      assert KeptWaiting(ss, steps, t, j, k - 1);
      WaitShrinks(ss, idle, steps, t, j, k - 1);
      TraceProgress(ss, idle, steps, t, k - 1);
      assert ss[k - 1 + 1] == ss[k];
      var n := Ticks(steps, k - 1) - Ticks(steps, j);
      CloserTwice(ss[j], ss[k - 1], ss[k], t, n, Count(steps[k - 1]), Ticks(steps, k) - Ticks(steps, j));
    }
  }

  /** Bounded waiting: as long as the membership of the queue does not change, a ready thread at
      distance d runs before the dispatcher has been entered d * QUANTUM times. */
  lemma BoundedWaiting(ss: seq<Sched>, idle: nat, steps: seq<Step>, t: nat)
    requires Trace(ss, idle, steps) && forall i :: 0 <= i < |steps| ==> SameMembers(steps[i])
    requires Waiting(ss[0], t) && Ticks(steps, |steps|) >= Distance(ss[0], t) * QUANTUM
    ensures exists k :: 0 < k < |ss| && ss[k].current == Some(t) && t < |ss[k].tcbs| && ss[k].tcbs[t].state.Running?
  {
    var k: nat := 0;
    while k < |steps| && ss[k + 1].current != Some(t)
      invariant k <= |steps| && KeptWaiting(ss, steps, t, 0, k)
    {
      k := k + 1;
    }
    WaitShrinks(ss, idle, steps, t, 0, k);
    if k < |steps| {
      TraceProgress(ss, idle, steps, t, k);
    } else {
      TraceCoherent(ss, idle, steps, 0);
      TraceCoherent(ss, idle, steps, k);
    }
  }

  /** Fairness: while a ready thread t is kept waiting, a thread that has lost the processor does
      not get it back. */
  lemma NoSecondTurn(ss: seq<Sched>, idle: nat, steps: seq<Step>, t: nat, a: nat, b: nat, c: nat)
    requires Trace(ss, idle, steps) && a <= b <= c < |ss| && KeptWaiting(ss, steps, t, a, c)
    requires ss[b].current != ss[a].current
    ensures ss[c].current != ss[a].current
  {
    WaitShrinks(ss, idle, steps, t, a, b);
    WaitShrinks(ss, idle, steps, t, b, c);
  }
}
