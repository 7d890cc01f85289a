/**
 The scheduler as the kernel runs it: thread records linked into a ring, updated in place.  Every
 operation is proved equal to its counterpart in SchedulerSpec on the abstract state Abs().
 */
module Scheduler {
  import opened Basics
  import opened SchedulerSpec

  /** A thread control block.  slot is its place in the static thread table. */
  class Thread {
    const slot: nat
    var tid: nat
    var pid: nat
    var state: ThreadState
    var user: bool
    var stackTop: Word
    var saved: Word
    var quantum: int
    var next: Thread?
    ghost var place: int   // position in the run queue, -1 outside

    constructor (slot: nat)
      ensures this.slot == slot && next == null && place == -1 && tid == 0 && state == Ready && saved == 0
    {
      this.slot := slot;
      tid, pid, state, user, stackTop, saved, quantum, next := 0, 0, Ready, false, 0, 0, 0, null;
      place := -1;
    }

    function Record(): Tcb
      reads this
    {
      Tcb(tid, pid, state, user, stackTop, saved, quantum)
    }
  }

  class Dispatcher {
    const threads: seq<Thread>
    const procs: array<Pcb>
    var head: Thread?
    var tail: Thread?
    var current: Thread?
    var running: Thread?
    var switches: nat
    var ticks: nat
    var cr3: Word
    var esp0: Word
    ghost var queue: seq<Thread>

    /** The state the kernel starts in: every thread record is zeroed and the queue is empty. */
    constructor (threads: seq<Thread>, procs: array<Pcb>, cr3: Word)
      requires forall i :: 0 <= i < |threads| ==> threads[i].slot == i && threads[i].next == null && threads[i].place == -1
      ensures Valid() && this.threads == threads && this.procs == procs && queue == [] && current == null && running == null
      ensures this.cr3 == cr3
    {
      this.threads, this.procs, this.cr3 := threads, procs, cr3;
      head, tail, current, running, queue := null, null, null, null, [];
      switches, ticks, esp0 := 0, 0, 0;
      new;
      assert forall i: nat :: i < |threads| ==> PlaceAt(i);
    }

    /** t is an entry of the thread table. */
    ghost predicate Entry(t: Thread) {
      t.slot < |threads| && threads[t.slot] == t
    }

    ghost predicate EntryOrNull(t: Thread?) {
      t != null ==> Entry(t)
    }

    /** Member k of the queue points at the next one, the last at the first. */
    ghost predicate LinkAt(k: nat)
      reads this, threads
      requires k < |queue|
    {
      var t := queue[k];
      Entry(t) && t in threads && t.place == k && t.next == queue[Turn(|queue|, k + 1)]
    }

    /** Entry i knows its place in the queue; outside the queue it points nowhere. */
    ghost predicate PlaceAt(i: nat)
      reads this, threads
      requires i < |threads|
    {
      var t := threads[i];
      t.slot == i && if t.place < 0 then t.next == null else t.place < |queue| && queue[t.place] == t
    }

    /** The next pointers make the queue one ring from head through tail back to head, and a thread
        outside the queue has none. */
    ghost predicate Valid()
      reads this, threads
    {
      && (if queue == [] then head == null && tail == null
          else head == queue[0] && tail == queue[|queue| - 1])
      && (forall k: nat {:trigger LinkAt(k)} :: k < |queue| ==> LinkAt(k))
      && (forall i: nat {:trigger PlaceAt(i)} :: i < |threads| ==> PlaceAt(i))
      && EntryOrNull(current) && EntryOrNull(running)
    }

    ghost function Slots(q: seq<Thread>): (r: seq<nat>)
      ensures |r| == |q| && forall k :: 0 <= k < |q| ==> r[k] == q[k].slot
    {
      seq(|q|, k requires 0 <= k < |q| => q[k].slot)
    }

    ghost function Records(): (r: seq<Tcb>)
      reads threads
      ensures |r| == |threads| && forall i :: 0 <= i < |threads| ==> r[i] == threads[i].Record()
    {
      seq(|threads|, i requires 0 <= i < |threads| reads threads => threads[i].Record())
    }

    ghost function SlotOf(t: Thread?): Option<nat> {
      if t == null then None else Some(t.slot)
    }

    ghost function Abs(): Sched
      reads this, threads, procs
    {
      Sched(Records(), Slots(queue), SlotOf(current), SlotOf(running), procs[..], switches, ticks, cr3, esp0)
    }

    lemma SlotsDistinct(q: seq<nat>)
      requires Valid() && q == Slots(queue)
      ensures Distinct(q)
    {
      forall j: nat, k: nat | j < k < |q| ensures Differ(q, j, k) {
        assert LinkAt(j) && LinkAt(k);
        assert threads[q[j]] == queue[j] && threads[q[k]] == queue[k];
      }
    }

    lemma AbsWellFormed()
      requires Valid()
      ensures WellFormed(Abs())
    {
      var s := Abs();
      SlotsDistinct(s.queue);
      forall k | 0 <= k < |s.queue| ensures s.queue[k] < |s.tcbs| {
        assert LinkAt(k);
      }
    }

    /** The ghost place of an entry is where the abstract queue has its slot. */
    lemma PlaceInQueue(t: Thread)
      requires Valid() && Entry(t)
      ensures t.place >= 0 <==> t.slot in Slots(queue)
      ensures t.place >= 0 ==> t.place < |queue| && queue[t.place] == t && IndexOf(Slots(queue), t.slot) == t.place
      ensures t.place < 0 ==> IndexOf(Slots(queue), t.slot) == |queue|
    {
      assert PlaceAt(t.slot);
      var q := Slots(queue);
      var k := IndexOf(q, t.slot);
      assert k < |q| ==> LinkAt(k);
      assert t.place >= 0 ==> q[t.place] == t.slot;
    }

    lemma SlotsAppend(q: seq<Thread>, t: Thread)
      ensures Slots(q + [t]) == Slots(q) + [t.slot]
    {
    }

    lemma SlotsWithout(q: seq<Thread>, k: nat)
      requires k < |q|
      ensures Slots(q[..k] + q[k + 1..]) == WithoutAt(Slots(q), k)
    {
    }

    /** The linking half of queue_insert: t goes between the tail and the head. */
    method Append(t: Thread)
      requires Valid() && Entry(t) && t.place < 0
      modifies this`head, this`tail, this`queue, threads`next, threads`place
      ensures Valid() && queue == old(queue) + [t] && t.place >= 0
    {
      ghost var n := |queue|;
      assert PlaceAt(t.slot);
      assert n > 0 ==> LinkAt(n - 1);
      if head == null {
        head := t;
        tail := t;
        t.next := t;
      } else {
        t.next := head;
        tail.next := t;
        tail := t;
      }
      t.place := n;
      queue := queue + [t];
      forall k: nat | k <= n ensures LinkAt(k) {
        assert k < n ==> old(LinkAt(k));
      }
      forall i: nat | i < |threads| ensures PlaceAt(i) {
        assert old(PlaceAt(i));
      }
    }

    /** queue_insert */
    method QueueInsert(t: Thread?)
      requires Valid() && (t != null ==> Entry(t) && t.place < 0)
      modifies this`head, this`tail, this`queue, threads`next, threads`place
      ensures Valid()
      ensures Abs() == old(Abs()).(queue := old(Abs()).queue + (if t == null then [] else [t.slot]))
      ensures t != null ==> t.place >= 0
    {
      if t == null { return; }
      SlotsAppend(queue, t);
      Append(t);
      assert Records() == old(Records());
      Relinked();
    }

    /** A head that is its own successor is the only member. */
    lemma OnlyMember()
      requires Valid() && head != null && head.next == head
      ensures |queue| == 1
    {
      assert LinkAt(0);
      assert |queue| > 1 ==> LinkAt(1);
    }

    /** The search of queue_remove: the member before t, or the last one if t is not queued. */
    method Predecessor(t: Thread) returns (prev: Thread)
      requires Valid() && Entry(t) && head != null
      ensures Entry(prev) && prev.place >= 0
      ensures if t.place >= 0 then prev.next == t else prev.next != t
      ensures prev.next == prev ==> head == prev
    {
      prev := head;
      ghost var k := 0;
      assert PlaceAt(t.slot) && LinkAt(0);
      while prev.next != t && prev.next != head
        invariant k < |queue| && prev == queue[k] && LinkAt(k)
        invariant t.place < 1 || k < t.place
        decreases |queue| - k
      {
        assert LinkAt(Turn(|queue|, k + 1));
        k := k + 1;
        prev := prev.next;
      }
      assert LinkAt(Turn(|queue|, k + 1));
    }

    /** The member after the j-th once the m-th is bypassed. */
    ghost function Skipping(n: nat, m: nat, j: nat): nat {
      var s := Turn(n, j + 1);
      if s == m then Turn(n, m + 1) else s
    }

    ghost predicate SkipAt(m: nat, j: nat)
      reads this, threads
      requires m < |queue| && j < |queue| && Skipping(|queue|, m, j) < |queue|
    {
      var t := queue[j];
      && Entry(t) && t in threads && t.place == j
      && t.next == if j == m then null else queue[Skipping(|queue|, m, j)]
    }

    /** The ring bypasses its m-th member, which the ghost queue still lists. */
    ghost predicate Bypasses(m: nat)
      reads this, threads
    {
      var n := |queue|;
      && m < n && n >= 2
      && head == queue[if m == 0 then 1 else 0] && tail == queue[if m == n - 1 then n - 2 else n - 1]
      && (forall j: nat {:trigger SkipAt(m, j)} :: j < n ==> SkipAt(m, j))
      && (forall i: nat {:trigger PlaceAt(i)} :: i < |threads| && i != queue[m].slot ==> PlaceAt(i))
      && EntryOrNull(current) && EntryOrNull(running)
    }

    /** The unlinking half of queue_remove: prev is made to bypass its successor t. */
    method Unlink(prev: Thread, t: Thread)
      requires Valid() && Entry(t) && Entry(prev) && prev.place >= 0 && prev.next == t && prev != t
      modifies this`head, this`tail, threads`next
      ensures t.place >= 0 && Bypasses(t.place) && queue[t.place] == t
    {
      assert PlaceAt(prev.slot) && LinkAt(prev.place);
      ghost var n, m := |queue|, Turn(|queue|, prev.place + 1);
      assert LinkAt(m) && queue[m] == t && LinkAt(0) && LinkAt(n - 1);
      prev.next := t.next;
      if head == t {
        head := t.next;
      }
      if tail == t {
        tail := prev;
      }
      t.next := null;
      forall j: nat | j < n ensures SkipAt(m, j) {
        assert old(LinkAt(j)) && old(LinkAt(Turn(n, j + 1)));
      }
      forall i: nat | i < |threads| && i != t.slot ensures PlaceAt(i) {
        assert old(PlaceAt(i));
      }
    }

    /** The place p of a member once member m has left. */
    ghost function Shifted(m: nat, p: int): int {
      if p == m then -1 else if p > m then p - 1 else p
    }

    ghost method Renumber(m: nat)
      requires forall i :: 0 <= i < |threads| ==> threads[i].slot == i
      modifies threads`place
      ensures forall i :: 0 <= i < |threads| ==> threads[i].place == Shifted(m, old(threads[i].place))
    {
      forall i | 0 <= i < |threads| {
        threads[i].place := Shifted(m, threads[i].place);
      }
    }

    /** The ghost queue and places catch up with the pointers. */
    ghost method Close(m: nat)
      requires Bypasses(m)
      modifies this`queue, threads`place
      ensures Valid() && old(queue[m]).place < 0
      ensures queue == old(queue)[..m] + old(queue)[m + 1..]
    {
      var was := queue;
      assert SkipAt(m, m) && SkipAt(m, 0) && SkipAt(m, |was| - 1);
      forall i: nat | i < |threads| ensures threads[i].slot == i {
        assert i != was[m].slot ==> PlaceAt(i);
      }
      Renumber(m);
      queue := was[..m] + was[m + 1..];
      ClosedLinks(m);
      ClosedPlaces(m);
    }

    twostate predicate Closed(m: nat)
      reads this, threads
    {
      && old(Bypasses(m)) && m < |old(queue)| && queue == old(queue)[..m] + old(queue)[m + 1..]
      && forall i :: 0 <= i < |threads| ==>
           threads[i].place == Shifted(m, old(threads[i].place)) && threads[i].next == old(threads[i].next)
    }

    twostate lemma ClosedLinks(m: nat)
      requires Closed(m)
      ensures forall j: nat {:trigger LinkAt(j)} :: j < |queue| ==> LinkAt(j)
    {
      forall j: nat | j < |queue| ensures LinkAt(j) {
        assert old(SkipAt(m, if j < m then j else j + 1));
        assert threads[queue[j].slot] == queue[j];
      }
    }

    twostate lemma ClosedPlaces(m: nat)
      requires Closed(m)
      ensures forall i: nat {:trigger PlaceAt(i)} :: i < |threads| ==> PlaceAt(i)
    {
      assert old(SkipAt(m, m));
      forall i: nat | i < |threads| ensures PlaceAt(i) {
        if i != old(queue)[m].slot {
          assert old(PlaceAt(i));
          assert old(threads[i].place) >= 0 ==> old(SkipAt(m, threads[i].place));
        }
      }
    }

    /** The abstract state after an operation that only relinks. */
    twostate lemma Relinked()
      requires Records() == old(Records()) && unchanged(procs)
      requires unchanged(this`current, this`running, this`switches, this`ticks, this`cr3, this`esp0)
      ensures Abs() == old(Abs()).(queue := Slots(queue))
    {
    }

    method RemoveOnly(t: Thread)
      requires Valid() && Entry(t) && head == t && t.next == t
      modifies this`head, this`tail, this`queue, threads`next, threads`place
      ensures Valid() && old(t.place) == 0 && |old(queue)| == 1 && queue == [] && t.place < 0
    {
      OnlyMember();
      assert LinkAt(0);
      head := null;
      tail := null;
      t.next := null;
      t.place := -1;
      queue := [];
      forall i: nat | i < |threads| ensures PlaceAt(i) {
        assert old(PlaceAt(i));
      }
    }

    /** queue_remove on the pointers: unlinks a queued thread wherever it stands, and does nothing to
        one that is not queued. */
    method Detach(t: Thread)
      requires Valid() && Entry(t)
      modifies this`head, this`tail, this`queue, threads`next, threads`place
      ensures Valid() && t.place < 0
      ensures old(t.place) < |old(queue)|
      ensures queue == if old(t.place) < 0 then old(queue)
                       else old(queue)[..old(t.place)] + old(queue)[old(t.place) + 1..]
    {
      assert PlaceAt(t.slot);
      if head == null { return; }
      if head.next == head && head == t {
        RemoveOnly(t);
        return;
      }
      var prev := Predecessor(t);
      if prev.next != t { return; }
      Unlink(prev, t);
      Close(t.place);
    }

    /** queue_remove */
    method QueueRemove(t: Thread?)
      requires Valid() && EntryOrNull(t)
      modifies this`head, this`tail, this`queue, threads`next, threads`place
      ensures Valid()
      ensures Abs() == old(Abs()).(queue := if t == null then old(Abs()).queue else Without(old(Abs()).queue, t.slot))
      ensures t != null ==> t.place < 0 && t.next == null
    {
      if t == null { return; }
      PlaceInQueue(t);
      if t.place >= 0 {
        SlotsWithout(queue, t.place);
      }
      Detach(t);
      assert PlaceAt(t.slot);
      assert Records() == old(Records());
      Relinked();
    }

    /** Where the search of queue_next_ready starts. */
    lemma SearchStart()
      requires Valid() && head != null
      ensures var first := if current != null && current.next != null then current.next else head;
        first == queue[Start(Slots(queue), SlotOf(current))]
    {
      if current != null {
        PlaceInQueue(current);
        assert PlaceAt(current.slot);
        assert current.place >= 0 ==> LinkAt(current.place);
      }
    }

    /** queue_next_ready, searching from the current thread. */
    method QueueNextReady() returns (r: Thread?)
      requires Valid()
      ensures WellFormed(Abs()) && EntryOrNull(r) && SlotOf(r) == NextReady(Abs())
    {
      AbsWellFormed();
      if head == null { return null; }
      SearchStart();
      ghost var start := Start(Slots(queue), SlotOf(current));
      r := Search(if current != null && current.next != null then current.next else head, start);
      if r == null && current != null && current.state == Ready { return current; }
    }

    /** The loop of queue_next_ready: once around the ring from first. */
    method Search(first: Thread, ghost start: nat) returns (r: Thread?)
      requires Valid() && start < |queue| && queue[start] == first && WellFormed(Abs())
      ensures EntryOrNull(r)
      ensures match FirstReady(Records(), Slots(queue), start, 0)
        case None => r == null
        case Some(k) => r == queue[Turn(|queue|, start + k)]
    {
      var candidate := first;
      ghost var tcbs, q, n := Records(), Slots(queue), |queue|;
      ghost var k: nat := 0;
      assert LinkAt(start);
      while true
        invariant k < n && candidate == queue[Turn(n, start + k)]
        invariant FirstReady(tcbs, q, start, 0) == FirstReady(tcbs, q, start, k)
        decreases n - k
      {
        assert LinkAt(Turn(n, start + k));
        assert ReadyAt(tcbs, q, start, k) == candidate.state.Ready?;
        if candidate.state == Ready { return candidate; }
        candidate := candidate.next;
        k := k + 1;
        assert k < n ==> LinkAt(Turn(n, start + k));
        if candidate == first { break; }
      }
      return null;
    }

    // ---- the public operations ------------------------------------------------------------

    /** The abstract state after the record of one thread, and perhaps the scheduler's own variables,
        have changed. */
    twostate lemma Rewritten(t: Thread)
      requires old(Valid()) && Entry(t) && EntryOrNull(current) && EntryOrNull(running)
      requires unchanged(this`head, this`tail, this`queue)
      requires forall i :: 0 <= i < |threads| && threads[i] != t ==> unchanged(threads[i])
      requires t.next == old(t.next) && t.place == old(t.place)
      ensures Valid()
      ensures t.slot < |old(Abs()).tcbs| && Records() == old(Abs()).tcbs[t.slot := t.Record()]
    {
      forall j: nat | j < |queue| ensures LinkAt(j) {
        assert old(LinkAt(j));
        assert queue[j] != t ==> unchanged(threads[queue[j].slot]);
      }
      forall i: nat | i < |threads| ensures PlaceAt(i) {
        assert old(PlaceAt(i));
        assert i != t.slot ==> unchanged(threads[i]);
      }
      var was := old(Abs()).tcbs;
      forall i: nat | i < |threads| ensures threads[i].Record() == was[t.slot := t.Record()][i] {
        assert PlaceAt(i);
        assert i != t.slot ==> unchanged(threads[i]);
      }
    }

    /** proc_get_process_by_pid */
    method ProcByPid(pid: nat) returns (p: Option<nat>)
      ensures p == FindProc(procs[..], pid)
      ensures p.Some? ==> p.value < procs.Length
    {
      for i := 0 to procs.Length
        invariant FindProcFrom(procs[..], pid, 0) == FindProcFrom(procs[..], pid, i)
      {
        if procs[i].active && procs[i].pid == pid { return Some(i); }
      }
      return None;
    }

    /** scheduler_init, called once g_current_thread is the idle thread. */
    method Init()
      requires Valid() && (running != null ==> running.place < 0)
      modifies this, threads
      ensures Valid()
      ensures var s := old(Abs());
        Abs() == if s.running.None? then s else
          var i := s.running.value;
          if i < |s.tcbs| then
            s.(queue := s.queue + [i], current := Some(i),
               tcbs := s.tcbs[i := s.tcbs[i].(state := Running, quantum := 10)])
          else s
    {
      var idle := running;
      if idle == null { return; }
      QueueInsert(idle);
      label Inserted:
      idle.state := Running;
      idle.quantum := QUANTUM;
      current := idle;
      Rewritten@Inserted(idle);
    }

    /** scheduler_add_thread */
    method AddThread(t: Thread?)
      requires Valid() && (t != null ==> Entry(t) && t.place < 0)
      modifies this, threads
      ensures Valid()
      ensures var s := old(Abs());
        Abs() == if t == null then s else if t.slot < |s.tcbs| then
          s.(queue := s.queue + [t.slot], tcbs := s.tcbs[t.slot := s.tcbs[t.slot].(state := Ready)]) else s
    {
      if t == null { return; }
      t.state := Ready;
      Rewritten(t);
      QueueInsert(t);
    }

    /** scheduler_remove_thread */
    method RemoveThread(t: Thread?)
      requires Valid() && EntryOrNull(t)
      modifies this, threads
      ensures Valid()
      ensures Abs() == old(Abs()).(queue := if t == null then old(Abs()).queue else Without(old(Abs()).queue, t.slot))
    {
      if t == null { return; }
      QueueRemove(t);
    }

    /** Steps 1 to 3 of scheduler_tick: record the context, give up the processor, charge the quantum. */
    method ChargeCurrent(ctx: Word)
      requires Valid() && current != null
      modifies this`ticks, threads
      ensures Valid() && WellFormed(old(Abs())) && Abs() == Charge(old(Abs()), ctx)
      ensures unchanged(this`current)
      ensures current.Record() == Charged(old(current.Record()), ctx)
    {
      AbsWellFormed();
      ticks := ticks + 1;
      current.saved := ctx;
      if current.state == Running {
        current.state := Ready;
      }
      if current.quantum > 0 {
        current.quantum := current.quantum - 1;
      }
      Rewritten(current);
    }

    method ResumeCurrent(q: int)
      requires Valid() && current != null
      modifies current
      ensures Valid() && WellFormed(old(Abs())) && Abs() == Resume(old(Abs()), q)
    {
      AbsWellFormed();
      current.quantum := q;
      current.state := Running;
      Rewritten(current);
    }

    /** Step 7 of scheduler_tick: the address space of the process n belongs to. */
    method SwitchSpace(n: Thread)
      requires current != null
      modifies this`cr3
      ensures cr3 == SwitchedCr3(old(Abs()), current.Record(), n.Record())
    {
      if n.pid != current.pid {
        var p := ProcByPid(n.pid);
        if p.Some? && procs[p.value].pageDir != 0 {
          cr3 := procs[p.value].pageDir;
        }
      }
    }

    lemma DispatchedFields(s: Sched, s': Sched, c: nat, n: nat)
      requires c < |s.tcbs| && n < |s.tcbs|
      requires s'.tcbs == s.tcbs[n := s.tcbs[n].(quantum := QUANTUM, state := Running)]
      requires s'.queue == s.queue && s'.procs == s.procs && s'.ticks == s.ticks
      requires s'.current == Some(n) && s'.running == Some(n) && s'.switches == s.switches + 1
      requires s'.cr3 == SwitchedCr3(s, s.tcbs[c], s.tcbs[n]) && s'.esp0 == s.tcbs[n].stackTop
      ensures s' == Dispatch(s, c, n)
    {
    }

    /** Steps 6 to 8 of scheduler_tick. */
    method DispatchThread(n: Thread)
      requires Valid() && current != null && Entry(n) && n != current
      modifies this, n
      ensures Valid() && WellFormed(old(Abs())) && n.saved == old(n.saved)
      ensures old(current.slot) < |threads| && Abs() == Dispatch(old(Abs()), old(current.slot), n.slot)
    {
      AbsWellFormed();
      ghost var c, s := current, Abs();
      switches := switches + 1;
      n.quantum := QUANTUM;
      n.state := Running;
      SwitchSpace(n);
      esp0 := n.stackTop;
      running := n;
      current := n;
      Rewritten(n);
      DispatchedFields(s, Abs(), c.slot, n.slot);
    }

    lemma CurrentRecord()
      requires Valid() && current != null
      ensures WellFormed(Abs()) && Abs().current == Some(current.slot)
      ensures Abs().tcbs[current.slot] == current.Record()
    {
      AbsWellFormed();
    }

    /** scheduler_tick */
    method Tick(ctx: Word) returns (r: Word)
      requires Valid()
      modifies this, threads
      ensures Valid() && WellFormed(old(Abs()))
      ensures (Abs(), r) == SchedulerSpec.Tick(old(Abs()), ctx)
    {
      AbsWellFormed();
      if current == null {
        ticks := ticks + 1;
        Ticked();
        return ctx;
      }
      ghost var s := Abs();
      CurrentRecord();
      ChargeCurrent(ctx);
      ghost var s1 := Abs();
      CurrentRecord();
      if current.quantum > 0 && current.state == Ready {
        TickResumes(s, ctx, current.quantum);
        ResumeCurrent(current.quantum);
        return ctx;
      }
      var next := QueueNextReady();
      if next == null || next == current {
        TickResumes(s, ctx, QUANTUM);
        ResumeCurrent(QUANTUM);
        return ctx;
      }
      TickDispatches(s, ctx, next.slot);
      assert s1.tcbs[next.slot] == next.Record();
      DispatchThread(next);
      if next.saved == 0 { return ctx; }
      return next.saved;
    }

    lemma TickResumes(s: Sched, ctx: Word, q: int)
      requires WellFormed(s) && s.current.Some?
      requires var s1 := Charge(s, ctx); var t := s1.tcbs[s.current.value];
        if KeepsProcessor(t) then q == t.quantum
        else q == QUANTUM && (NextReady(s1).None? || NextReady(s1) == s.current)
      ensures SchedulerSpec.Tick(s, ctx) == (Resume(Charge(s, ctx), q), ctx)
    {
    }

    lemma TickDispatches(s: Sched, ctx: Word, n: nat)
      requires WellFormed(s) && s.current.Some? && n < |s.tcbs|
      requires var s1 := Charge(s, ctx);
        !KeepsProcessor(s1.tcbs[s.current.value]) && NextReady(s1) == Some(n) && n != s.current.value
      ensures var s1 := Charge(s, ctx); var saved := s1.tcbs[n].saved;
        SchedulerSpec.Tick(s, ctx) == (Dispatch(s1, s.current.value, n), if saved == 0 then ctx else saved)
    {
    }

    twostate lemma Ticked()
      requires old(Valid()) && unchanged(threads) && unchanged(procs)
      requires unchanged(this`head, this`tail, this`queue, this`current, this`running, this`switches, this`cr3, this`esp0)
      ensures Valid() && Abs() == old(Abs()).(ticks := ticks)
    {
      forall j: nat | j < |queue| ensures LinkAt(j) {
        assert old(LinkAt(j));
      }
      forall i: nat | i < |threads| ensures PlaceAt(i) {
        assert old(PlaceAt(i));
      }
    }

    /** scheduler_yield up to the int 0x20 that enters the timer handler. */
    method ClearQuantum()
      requires Valid()
      modifies this, threads
      ensures Valid() && WellFormed(old(Abs())) && Abs() == SchedulerSpec.ClearQuantum(old(Abs()))
    {
      AbsWellFormed();
      if current != null {
        current.quantum := 0;
        Rewritten(current);
      }
    }

    /** proc_exit up to the halt it waits in. */
    method Exit()
      requires Valid()
      modifies this, threads
      ensures Valid()
      ensures var s := old(Abs());
        Abs() == if s.running.None? || s.running.value >= |s.tcbs| then s else
          s.(tcbs := s.tcbs[s.running.value := s.tcbs[s.running.value].(state := Dead)])
    {
      if running != null {
        running.state := Dead;
        Rewritten(running);
      }
    }
  }
}
