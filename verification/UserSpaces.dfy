/**
 The address space of a new user process, on values: a clone of the kernel's directory, the pages of its
 code, sixteen stack pages in frames of their own, and one page of kernel code it may execute.
 */
module UserSpaces {
  import opened Basics
  import opened Paging
  import opened AddressSpaces
  import opened FrameUse
  import IdentityMap
  import Pmm

  const PAGES := 0x10_0000                   // pages of an address space
  const STACK_PAGE: nat := 0x7FFE0           // the first of the user stack
  const STACK_PAGES: nat := 16
  const THUNK_PAGE: nat := 0x106
  const USER_WRITABLE: Word := 7             // present, writable, user
  const USER_READABLE: Word := 5             // present, user

  /** The p-th page from address base on; addresses wrap around. */
  function NthPage(base: Word, p: nat): Word { (base + p * PAGE_SIZE) % TWO_TO_THE_32 }

  lemma NthPageIs(base: Word, p: nat)
    requires base % PAGE_SIZE == 0
    ensures Page(NthPage(base, p)) == (Page(base) + p) % PAGES
  {
    var q := Page(base);
    assert base == q * PAGE_SIZE;
    var n, m := (q + p) / PAGES, (q + p) % PAGES;
    assert base + p * PAGE_SIZE == n * TWO_TO_THE_32 + m * PAGE_SIZE;
    assert 0 <= m * PAGE_SIZE < TWO_TO_THE_32;
    Remainder(base + p * PAGE_SIZE, n, m * PAGE_SIZE);
    Pages(m * PAGE_SIZE, m, 0);
  }

  lemma Remainder(x: int, n: int, r: int)
    requires x == n * TWO_TO_THE_32 + r && 0 <= r < TWO_TO_THE_32
    ensures x % TWO_TO_THE_32 == r
  {
  }

  // ---- the loops of proc_create_user ----------------------------------------------------------------

  /** The code loop after n rounds. */
  function MapCode(v: Vm, d: nat, virt: Word, phys: Word, n: nat): (v': Vm)
    requires Roomy(v) && InRam(v.mem, d)
    ensures Roomy(v') && |v'.mem| == |v.mem| && v'.kernelDir == v.kernelDir
  {
    if n == 0 then v
    else MapPage(MapCode(v, d, virt, phys, n - 1), d, NthPage(virt, n - 1), NthPage(phys, n - 1), USER_WRITABLE)
  }

  /** One round more. */
  lemma CodeUnrolled(v: Vm, v1: Vm, d: nat, virt: Word, phys: Word, k: nat) returns (n: nat)
    requires Roomy(v) && InRam(v.mem, d) && v1 == MapCode(v, d, virt, phys, k)
    ensures n == k + 1 && MapPage(v1, d, NthPage(virt, k), NthPage(phys, k), USER_WRITABLE) == MapCode(v, d, virt, phys, n)
  {
    n := k + 1;
  }

  function StackAddress(n: nat): Word
    requires n <= STACK_PAGES
  {
    (STACK_PAGE + n) * PAGE_SIZE
  }

  /** The next frame taken as it is. */
  function Take(v: Vm): (r: (Vm, Word))
    requires Roomy(v)
    ensures Roomy(r.0) && |r.0.mem| == |v.mem| && r.0.kernelDir == v.kernelDir
    ensures r.1 != 0 <==> HasFrame(v.pmm)
  {
    var (p, a) := Pmm.Alloc(v.pmm);
    if a == 0 then (v, 0) else
      NextIsFresh(v, Owners({}, map[]), p, Page(a));
      (v.(pmm := p), a)
  }

  /** The stack loop from round k on; it stops when there is no frame. */
  function MapStack(v: Vm, d: nat, k: nat): (r: (Vm, bool))
    requires Roomy(v) && InRam(v.mem, d) && k <= STACK_PAGES
    ensures Roomy(r.0) && |r.0.mem| == |v.mem| && r.0.kernelDir == v.kernelDir
    decreases STACK_PAGES - k
  {
    if k == STACK_PAGES then (v, true)
    else
      var (v1, a) := Take(v);
      if a == 0 then (v1, false) else MapStack(MapPage(v1, d, StackAddress(k), a, USER_WRITABLE), d, k + 1)
  }

  /** One round, and then the rest. */
  lemma StackUnrolled(v: Vm, d: nat, k: nat) returns (n: nat)
    requires Roomy(v) && InRam(v.mem, d) && k < STACK_PAGES
    ensures n == k + 1
    ensures var (v1, a) := Take(v);
      MapStack(v, d, k) == if a == 0 then (v1, false) else MapStack(MapPage(v1, d, StackAddress(k), a, USER_WRITABLE), d, n)
  {
    n := k + 1;
  }

  /** Round k of the code loop maps to its page, as present, writable and user with no other flag. */
  lemma CodeRoundMaps(v: Vm, d: nat, virt: Word, phys: Word, k: nat, n: nat)
    requires Roomy(v) && InRam(v.mem, d) && n == k + 1
    ensures MapCode(v, d, virt, phys, n) ==
            MapPage(MapCode(v, d, virt, phys, k), d, (virt + k * 4096) % 0x1_0000_0000, (phys + k * 4096) % 0x1_0000_0000, 7)
  {
    var n' := CodeUnrolled(v, MapCode(v, d, virt, phys, k), d, virt, phys, k);
  }

  /** So does round k of the stack loop, with a frame just taken. */
  lemma StackRoundMaps(v: Vm, d: nat, k: nat, n: nat)
    requires Roomy(v) && InRam(v.mem, d) && k < 16 && n == k + 1 && Take(v).1 != 0
    ensures var (v1, a) := Take(v); MapStack(v, d, k) == MapStack(MapPage(v1, d, 0x7FFE_0000 + k * 4096, a, 7), d, n)
  {
    var n' := StackUnrolled(v, d, k);
  }

  // ---- data stays -----------------------------------------------------------------------------------

  /** A frame taken as it is holds data; the mappings of proc_create_user write no frame of data. */
  lemma TakeKeeps(v: Vm, dirs: set<nat>)
    requires Grounded(v, dirs)
    ensures var (v', a) := Take(v); Grounded(v', dirs) && KeepsData(v, v', dirs, dirs) && (a != 0 ==> Held(v', dirs, Page(a)))
  {
    KeepsNothing(v, dirs);
    var (v', a) := Take(v);
    if a != 0 {
      NextIsFresh(v, Owners({}, map[]), v'.pmm, Page(a));
      FilledWith(v, v', Page(a));
      FrameTaken(v, dirs, v'.pmm, Page(a), Content(v'.mem, Page(a)));
    }
  }

  lemma CodeKeeps(v: Vm, dirs: set<nat>, d: nat, virt: Word, phys: Word, n: nat)
    requires Grounded(v, dirs) && d in dirs && InRam(v.mem, d)
    ensures var v' := MapCode(v, d, virt, phys, n); Grounded(v', dirs) && KeepsData(v, v', dirs, dirs)
  {
    KeepsNothing(v, dirs);
    var k, v1 := 0, v;
    while k < n
      invariant k <= n && v1 == MapCode(v, d, virt, phys, k) && Grounded(v1, dirs) && KeepsData(v, v1, dirs, dirs)
    {
      var k' := CodeUnrolled(v, v1, d, virt, phys, k);
      MapKeepsOn(v, v1, dirs, dirs, d, NthPage(virt, k), NthPage(phys, k), USER_WRITABLE);
      k, v1 := k', MapPage(v1, d, NthPage(virt, k), NthPage(phys, k), USER_WRITABLE);
    }
  }

  lemma {:induction false} StackKeeps(v: Vm, dirs: set<nat>, d: nat, k: nat)
    requires Grounded(v, dirs) && d in dirs && InRam(v.mem, d) && k <= STACK_PAGES
    ensures var v' := MapStack(v, d, k).0; Grounded(v', dirs) && KeepsData(v, v', dirs, dirs)
    decreases STACK_PAGES - k
  {
    if k == STACK_PAGES {
      KeepsNothing(v, dirs);
    } else {
      var n := StackUnrolled(v, d, k);
      TakeKeeps(v, dirs);
      var (v1, a) := Take(v);
      if a != 0 {
        MapKeepsOn(v, v1, dirs, dirs, d, StackAddress(k), a, USER_WRITABLE);
        var v2 := MapPage(v1, d, StackAddress(k), a, USER_WRITABLE);
        StackKeeps(v2, dirs, d, n);
        KeepsTwice(v, v2, MapStack(v2, d, n).0, dirs, dirs, dirs);
      }
    }
  }

  // ---- changes of translations ----------------------------------------------------------------------

  /** From v to v', exactly the pages in m get the translations m gives them, in directory d; everything
      else translates as before, in every directory. */
  predicate Maps(v: Vm, v': Vm, o: Owners, o': Owners, d: nat, m: map<nat, Mapping>) {
    && Separated(v, o) && Separated(v', o') && d in o.dirs && o'.dirs == o.dirs
    && InRam(v.mem, d) && InRam(v'.mem, d)
    && (forall x: nat {:trigger Walk(v'.mem, d, x)} :: x < PAGES ==>
          Walk(v'.mem, d, x) == if x in m then Some(m[x]) else Walk(v.mem, d, x))
    && OtherDirsSame(v, v', o, d)
  }

  lemma MapsTwice(v: Vm, v1: Vm, v2: Vm, o: Owners, o1: Owners, o2: Owners, d: nat, m: map<nat, Mapping>, m': map<nat, Mapping>)
    requires Maps(v, v1, o, o1, d, m) && Maps(v1, v2, o1, o2, d, m')
    ensures Maps(v, v2, o, o2, d, m + m')
  {
    OtherDirsTwice(v, v1, v2, o, d);
    forall x: nat | x < PAGES ensures Walk(v2.mem, d, x) == if x in m + m' then Some((m + m')[x]) else Walk(v.mem, d, x) {
      assert Walk(v1.mem, d, x) == if x in m then Some(m[x]) else Walk(v.mem, d, x);
    }
  }

  lemma MapsNothing(v: Vm, o: Owners, d: nat)
    requires Separated(v, o) && d in o.dirs
    ensures Maps(v, v, o, o, d, map[])
  {
    assert DirOk(v, o, d);
    forall e, x: nat | e in o.dirs && e != d && x < PAGES ensures SameWalk(v, v, e, x) {
      assert DirOk(v, o, e);
    }
  }

  /** One mapping that can take effect; it costs a frame exactly when its directory entry was absent. */
  lemma MapsOne(v: Vm, o: Owners, d: nat, virt: Word, phys: Word, flags: Word)
    requires Separated(v, o) && d in o.dirs && IsFlags(flags) && InRam(v.mem, d)
    requires FreeFrames(v.pmm) > 0 || Present(Peek(v.mem, d, Page(virt) / ENTRIES))
    ensures var v' := MapPage(v, d, virt, phys, flags); var i := Page(virt) / ENTRIES;
      && Maps(v, v', o, MapOwners(v, o, d, virt), d, map[Page(virt) := Mapping(Page(phys), Writable(flags), User(flags))])
      && Present(Peek(v'.mem, d, i))
      && FreeFrames(v'.pmm) == FreeFrames(v.pmm) - (if Present(Peek(v.mem, d, i)) then 0 else 1)
  {
    assert DirOk(v, o, d);
    TakeFrameCounts(v, Zeros());
    MapIsolation(v, o, d, virt, phys, flags);
    IdentityMap.MapCost(v, o, d, virt, phys, flags, Page(virt) / ENTRIES);
    var v' := MapPage(v, d, virt, phys, flags);
    forall x: nat | x < PAGES && x != Page(virt) ensures Walk(v'.mem, d, x) == Walk(v.mem, d, x) {
      assert SameWalk(v, v', d, x);
    }
  }

  /** A frame taken for data, whatever is written into it, changes no translation. */
  lemma DataMaps(v: Vm, v': Vm, o: Owners, d: nat, n: nat)
    requires Separated(v, o) && d in o.dirs && Next(v, v'.pmm, n) && v'.kernelDir == v.kernelDir && |v'.mem| == |v.mem|
    requires InRam(v.mem, n) && forall w :: 0 <= w < |v.mem| && !(n * ENTRIES <= w < n * ENTRIES + ENTRIES) ==> v'.mem[w] == v.mem[w]
    ensures Maps(v, v', o, o, d, map[])
  {
    var t := Content(v'.mem, n);
    FilledWith(v, v', n);
    NextIsFresh(v, o, v'.pmm, n);
    FilledSeparated(v, o, v'.pmm, n, t);
    assert DirOk(v, o, d);
    forall e, x: nat | e in o.dirs && x < PAGES ensures SameWalk(v, v', e, x) {
      FilledWalk(v, o, v'.pmm, n, t, e, x);
    }
    forall x: nat | x < PAGES ensures Walk(v'.mem, d, x) == Walk(v.mem, d, x) {
      assert SameWalk(v, v', d, x);
    }
  }

  // ---- code -----------------------------------------------------------------------------------------

  /** The translations the code loop makes in n rounds. */
  function CodeMap(virt: Word, phys: Word, n: nat): map<nat, Mapping> {
    if n == 0 then map[] else CodeMap(virt, phys, n - 1) + map[Page(NthPage(virt, n - 1)) := Mapping(Page(NthPage(phys, n - 1)), true, true)]
  }

  /** Tables the first n pages from page q on need at most. */
  function TablesFor(q: nat, n: nat): nat {
    if n == 0 then 0 else TablesFor(q, n - 1) + (if n == 1 || (q + n - 1) % ENTRIES == 0 then 1 else 0)
  }

  /** From v to v1 the translations m were made, for at most c frames. */
  predicate Progress(v: Vm, v1: Vm, o: Owners, o1: Owners, d: nat, m: map<nat, Mapping>, c: nat) {
    Maps(v, v1, o, o1, d, m) && FreeFrames(v1.pmm) >= FreeFrames(v.pmm) - c
  }

  /** One mapping more. It costs nothing where there is a table already. */
  lemma MapMore(v: Vm, v1: Vm, o: Owners, o1: Owners, d: nat, m: map<nat, Mapping>, m': map<nat, Mapping>, c: nat, c': nat,
                virt: Word, phys: Word, flags: Word)
    requires Progress(v, v1, o, o1, d, m, c) && IsFlags(flags)
    requires m' == m + map[Page(virt) := Mapping(Page(phys), Writable(flags), User(flags))]
    requires if Present(Peek(v1.mem, d, Page(virt) / ENTRIES)) then c' >= c else c' > c && FreeFrames(v1.pmm) > 0
    ensures var v2 := MapPage(v1, d, virt, phys, flags);
      && Progress(v, v2, o, MapOwners(v1, o1, d, virt), d, m', c')
      && Present(Peek(v2.mem, d, Page(virt) / ENTRIES))
  {
    MapsOne(v1, o1, d, virt, phys, flags);
    MapsTwice(v, v1, MapPage(v1, d, virt, phys, flags), o, o1, MapOwners(v1, o1, d, virt), d, m,
              map[Page(virt) := Mapping(Page(phys), Writable(flags), User(flags))]);
  }

  /** The directory entry of a page number taken modulo the size of the address space. */
  lemma EntryOfPage(s: nat)
    ensures (s % PAGES) / ENTRIES == (s / ENTRIES) % ENTRIES
  {
    var q, r := s / ENTRIES, s % ENTRIES;
    var a, b := q / ENTRIES, q % ENTRIES;
    assert s == ENTRIES * q + r && q == ENTRIES * a + b;
    Split(s, a, b * ENTRIES + r);
  }

  lemma Split(s: nat, a: nat, r: nat)
    requires s == PAGES * a + r && r < PAGES
    ensures s % PAGES == r
  {
  }

  lemma SameTable(virt: Word, n: nat)
    requires virt % PAGE_SIZE == 0 && n > 0 && (Page(virt) + n) % ENTRIES != 0
    ensures Page(NthPage(virt, n)) / ENTRIES == Page(NthPage(virt, n - 1)) / ENTRIES
  {
    NthPageIs(virt, n);
    NthPageIs(virt, n - 1);
    var s := Page(virt) + n;
    EntryOfPage(s);
    EntryOfPage(s - 1);
    assert (s - 1) / ENTRIES == s / ENTRIES;
  }

  lemma TablesGrow(q: nat, i: nat, n: nat)
    requires i <= n
    ensures TablesFor(q, i) <= TablesFor(q, n)
    decreases n
  {
    if i < n {
      TablesGrow(q, i, n - 1);
    }
  }

  /** Where the code loop stands after n rounds. */
  predicate CodeDone(v: Vm, v1: Vm, o: Owners, o1: Owners, d: nat, virt: Word, phys: Word, n: nat) {
    && Progress(v, v1, o, o1, d, CodeMap(virt, phys, n), TablesFor(Page(virt), n))
    && (n > 0 ==> Present(Peek(v1.mem, d, Page(NthPage(virt, n - 1)) / ENTRIES)))
  }

  lemma NextCost(v1: Vm, d: nat, virt: Word, k: nat, n: nat)
    requires virt % PAGE_SIZE == 0 && n == k + 1 && InRam(v1.mem, d)
    requires k > 0 ==> Present(Peek(v1.mem, d, Page(NthPage(virt, k - 1)) / ENTRIES))
    ensures var c, c' := TablesFor(Page(virt), k), TablesFor(Page(virt), n);
      if Present(Peek(v1.mem, d, Page(NthPage(virt, k)) / ENTRIES)) then c' >= c else c' > c
  {
    if k > 0 && (Page(virt) + k) % ENTRIES != 0 {
      SameTable(virt, k);
    }
  }

  lemma CodeRound(v: Vm, v1: Vm, o: Owners, o1: Owners, d: nat, virt: Word, phys: Word, k: nat, n: nat)
    requires CodeDone(v, v1, o, o1, d, virt, phys, k) && virt % PAGE_SIZE == 0 && n == k + 1
    requires FreeFrames(v.pmm) >= TablesFor(Page(virt), n) || FreeFrames(v1.pmm) > 0
    ensures CodeDone(v, MapPage(v1, d, NthPage(virt, k), NthPage(phys, k), USER_WRITABLE), o, MapOwners(v1, o1, d, NthPage(virt, k)), d, virt, phys, n)
  {
    NextCost(v1, d, virt, k, n);
    CodeMapNext(virt, phys, k, n);
    MapMore(v, v1, o, o1, d, CodeMap(virt, phys, k), CodeMap(virt, phys, n), TablesFor(Page(virt), k), TablesFor(Page(virt), n),
            NthPage(virt, k), NthPage(phys, k), USER_WRITABLE);
    assert NthPage(virt, n - 1) == NthPage(virt, k);
  }

  lemma CodeMapNext(virt: Word, phys: Word, k: nat, n: nat)
    requires n == k + 1
    ensures CodeMap(virt, phys, n) ==
            CodeMap(virt, phys, k) + map[Page(NthPage(virt, k)) := Mapping(Page(NthPage(phys, k)), Writable(USER_WRITABLE), User(USER_WRITABLE))]
  {
  }

  /** The code loop gives no frame back. */
  lemma CodeTakes(v: Vm, d: nat, virt: Word, phys: Word, i: nat, n: nat)
    requires Roomy(v) && InRam(v.mem, d) && i <= n
    ensures FreeFrames(MapCode(v, d, virt, phys, n).pmm) <= FreeFrames(MapCode(v, d, virt, phys, i).pmm)
  {
    var k, v0 := i, MapCode(v, d, virt, phys, i);
    var v1 := v0;
    while k < n
      invariant k <= n && v1 == MapCode(v, d, virt, phys, k) && FreeFrames(v1.pmm) <= FreeFrames(v0.pmm)
    {
      var k' := CodeUnrolled(v, v1, d, virt, phys, k);
      MapTakes(v1, d, NthPage(virt, k), NthPage(phys, k), USER_WRITABLE);
      k, v1 := k', MapPage(v1, d, NthPage(virt, k), NthPage(phys, k), USER_WRITABLE);
    }
  }

  /** The code loop, with frames for the tables it needs, or when it leaves a frame, has mapped every page of the
      code. */
  lemma CodeMapped(v: Vm, o: Owners, d: nat, virt: Word, phys: Word, n: nat) returns (o': Owners)
    requires Separated(v, o) && d in o.dirs && virt % PAGE_SIZE == 0 && Roomy(v) && InRam(v.mem, d)
    requires FreeFrames(v.pmm) >= TablesFor(Page(virt), n) || FreeFrames(MapCode(v, d, virt, phys, n).pmm) > 0
    ensures CodeDone(v, MapCode(v, d, virt, phys, n), o, o', d, virt, phys, n)
  {
    MapsNothing(v, o, d);
    o' := o;
    var k, v1 := 0, v;
    while k < n
      invariant k <= n && v1 == MapCode(v, d, virt, phys, k) && CodeDone(v, v1, o, o', d, virt, phys, k)
    {
      var k' := CodeUnrolled(v, v1, d, virt, phys, k);
      TablesGrow(Page(virt), k', n);
      CodeTakes(v, d, virt, phys, k, n);
      CodeRound(v, v1, o, o', d, virt, phys, k, k');
      o' := MapOwners(v1, o', d, NthPage(virt, k));
      k, v1 := k', MapPage(v1, d, NthPage(virt, k), NthPage(phys, k), USER_WRITABLE);
    }
  }

  lemma PagesApart(q: nat, x: nat, j: nat)
    requires q < PAGES && x < PAGES && j < PAGES
    ensures x == (q + j) % PAGES <==> (x + PAGES - q) % PAGES == j
  {
  }

  /** Page x of the code: the one x - Page(virt) pages into it. */
  lemma {:induction false} CodeMapIs(virt: Word, phys: Word, n: nat, x: nat)
    requires virt % PAGE_SIZE == 0 && phys % PAGE_SIZE == 0 && n <= PAGES && x < PAGES
    ensures var k := (x + PAGES - Page(virt)) % PAGES;
      && (x in CodeMap(virt, phys, n) <==> k < n)
      && (k < n ==> CodeMap(virt, phys, n)[x] == Mapping((Page(phys) + k) % PAGES, true, true))
    decreases n
  {
    if n > 0 {
      CodeMapIs(virt, phys, n - 1, x);
      NthPageIs(virt, n - 1);
      NthPageIs(phys, n - 1);
      PagesApart(Page(virt), x, n - 1);
    }
  }

  // ---- stack ----------------------------------------------------------------------------------------

  /** The translations of the first n stack pages. */
  function StackMap(frames: seq<nat>, n: nat): map<nat, Mapping>
    requires n <= |frames|
  {
    if n == 0 then map[] else StackMap(frames, n - 1) + map[STACK_PAGE + (n - 1) := Mapping(frames[n - 1], true, true)]
  }

  /** Nothing that was allocated has been given back. */
  ghost predicate Grows(p: Pmm.Pmm, p': Pmm.Pmm) {
    forall x: nat {:trigger Allocated(p', x)} :: Allocated(p, x) ==> Allocated(p', x)
  }

  /** Frame f was free in p and is allocated in p'. */
  predicate Obtained(p: Pmm.Pmm, p': Pmm.Pmm, f: nat) { !Allocated(p, f) && Allocated(p', f) }

  lemma MapGrows(v: Vm, o: Owners, d: nat, virt: Word, phys: Word, flags: Word)
    requires Separated(v, o) && d in o.dirs && IsFlags(flags) && InRam(v.mem, d)
    ensures Grows(v.pmm, MapPage(v, d, virt, phys, flags).pmm)
  {
    if HasFrame(v.pmm) {
      NextIsFresh(v, o, Pmm.Alloc(v.pmm).0, Page(Pmm.Alloc(v.pmm).1));
    }
  }

  lemma TakeMaps(v: Vm, o: Owners, d: nat)
    requires Separated(v, o) && d in o.dirs && FreeFrames(v.pmm) > 0
    ensures var (v1, a) := Take(v);
      && a != 0 && v1.mem == v.mem && Maps(v, v1, o, o, d, map[]) && FreeFrames(v1.pmm) == FreeFrames(v.pmm) - 1
      && Obtained(v.pmm, v1.pmm, Page(a)) && Grows(v.pmm, v1.pmm) && a == Page(a) * PAGE_SIZE
  {
    TakeFrameCounts(v, Zeros());
    var (v1, a) := Take(v);
    NextIsFresh(v, o, v1.pmm, Page(a));
    DataMaps(v, v1, o, d, Page(a));
  }

  /** Where the stack loop stands after n rounds: every page has a frame of its own. */
  ghost predicate StackDone(v: Vm, v1: Vm, o: Owners, o1: Owners, d: nat, frames: seq<nat>, n: nat) {
    && n == |frames| && Progress(v, v1, o, o1, d, StackMap(frames, n), if n > 0 then n + 1 else 0)
    && Grows(v.pmm, v1.pmm) && Distinct(frames)
    && (forall k {:trigger frames[k]} :: 0 <= k < n ==> Obtained(v.pmm, v1.pmm, frames[k]) && IsData(v1, o1.dirs, frames[k]))
    && (n > 0 ==> Present(Peek(v1.mem, d, STACK_PAGE / ENTRIES)))
  }

  lemma StackPage(k: nat)
    requires k < STACK_PAGES
    ensures Page(StackAddress(k)) == STACK_PAGE + k && Page(StackAddress(k)) / ENTRIES == STACK_PAGE / ENTRIES
  {
    Pages(StackAddress(k), STACK_PAGE + k, 0);
  }

  lemma StackMapNext(frames: seq<nat>, f: nat, k: nat, n: nat)
    requires n == k + 1 && k == |frames|
    ensures StackMap(frames + [f], n) ==
            StackMap(frames, k) + map[STACK_PAGE + k := Mapping(f, Writable(USER_WRITABLE), User(USER_WRITABLE))]
  {
    StackMapPrefix(frames, f, k);
  }

  lemma {:induction false} StackMapPrefix(frames: seq<nat>, f: nat, k: nat)
    requires k <= |frames|
    ensures StackMap(frames + [f], k) == StackMap(frames, k)
    decreases k
  {
    if k > 0 {
      StackMapPrefix(frames, f, k - 1);
    }
  }

  /** The frames of the stack so far, and the one just taken, stay data through the next mapping. */
  lemma StackStaysData(v1: Vm, v2: Vm, o1: Owners, d: nat, frames: seq<nat>, f: nat, virt: Word, a: Word)
    requires Separated(v1, o1) && d in o1.dirs && InRam(v1.mem, d) && (v2, a) == Take(v1) && a != 0 && f == Page(a)
    requires forall k {:trigger frames[k]} :: 0 <= k < |frames| ==> Held(v1, o1.dirs, frames[k])
    ensures forall k {:trigger (frames + [f])[k]} :: 0 <= k <= |frames| ==>
      IsData(MapPage(v2, d, virt, a, USER_WRITABLE), o1.dirs, (frames + [f])[k])
  {
    SeparatedGrounded(v1, o1);
    TakeKeeps(v1, o1.dirs);
    MapKeeps(v2, o1.dirs, d, virt, a, USER_WRITABLE);
    var v3 := MapPage(v2, d, virt, a, USER_WRITABLE);
    forall k | 0 <= k <= |frames| ensures IsData(v3, o1.dirs, (frames + [f])[k]) {
      assert k < |frames| ==> Held(v1, o1.dirs, frames[k]);
      assert Held(v2, o1.dirs, (frames + [f])[k]);
    }
  }

  lemma StackTranslates(v: Vm, v1: Vm, o: Owners, o1: Owners, d: nat, frames: seq<nat>, k: nat, n: nat)
    requires k == |frames| && Progress(v, v1, o, o1, d, StackMap(frames, k), if k > 0 then k + 1 else 0)
    requires k > 0 ==> Present(Peek(v1.mem, d, STACK_PAGE / ENTRIES))
    requires n == k + 1 <= STACK_PAGES && FreeFrames(v1.pmm) > 0
    requires Present(Peek(v1.mem, d, STACK_PAGE / ENTRIES)) || FreeFrames(v1.pmm) > 1
    ensures var (v2, a) := Take(v1);
      && a != 0 && InRam(v2.mem, d)
      && var v3 := MapPage(v2, d, StackAddress(k), a, USER_WRITABLE);
      && Progress(v, v3, o, MapOwners(v2, o1, d, StackAddress(k)), d, StackMap(frames + [Page(a)], n), n + 1)
      && Present(Peek(v3.mem, d, STACK_PAGE / ENTRIES))
  {
    TakeMaps(v1, o1, d);
    var (v2, a) := Take(v1);
    var m := StackMap(frames, k);
    MapsTwice(v, v1, v2, o, o1, o1, d, m, map[]);
    assert m + map[] == m;
    StackPage(k);
    StackMapNext(frames, Page(a), k, n);
    var c := if k > 0 then k + 1 else 0;
    MapMore(v, v2, o, o1, d, m, StackMap(frames + [Page(a)], n), c + 1, n + 1, StackAddress(k), a, USER_WRITABLE);
  }

  lemma StackRound(v: Vm, v1: Vm, o: Owners, o1: Owners, d: nat, frames: seq<nat>, k: nat, n: nat)
    requires StackDone(v, v1, o, o1, d, frames, k) && n == k + 1 <= STACK_PAGES && FreeFrames(v1.pmm) > 0
    requires Present(Peek(v1.mem, d, STACK_PAGE / ENTRIES)) || FreeFrames(v1.pmm) > 1
    ensures var (v2, a) := Take(v1);
      && a != 0 && InRam(v2.mem, d)
      && var v3 := MapPage(v2, d, StackAddress(k), a, USER_WRITABLE);
      StackDone(v, v3, o, MapOwners(v2, o1, d, StackAddress(k)), d, frames + [Page(a)], n)
  {
    TakeMaps(v1, o1, d);
    var (v2, a) := Take(v1);
    StackTranslates(v, v1, o, o1, d, frames, k, n);
    MapGrows(v2, o1, d, StackAddress(k), a, USER_WRITABLE);
    AppendDistinct(frames, Page(a));
    StackStaysData(v1, v2, o1, d, frames, Page(a), StackAddress(k), a);
  }

  /** A stack loop that succeeds had a frame, and a second one at its start. */
  lemma StackHadFrames(v: Vm, d: nat, k: nat)
    requires Roomy(v) && InRam(v.mem, d) && k < STACK_PAGES && MapStack(v, d, k).1
    ensures FreeFrames(v.pmm) > 0 && (k + 1 < STACK_PAGES ==> FreeFrames(v.pmm) > 1)
  {
    TakeFrameCounts(v, Zeros());
    var n := StackUnrolled(v, d, k);
    var (v1, a) := Take(v);
    MapTakes(v1, d, StackAddress(k), a, USER_WRITABLE);
    var v2 := MapPage(v1, d, StackAddress(k), a, USER_WRITABLE);
    TakeFrameCounts(v2, Zeros());
    if n < STACK_PAGES {
      var n' := StackUnrolled(v2, d, n);
    }
  }

  /** The rest of the stack loop, with frames for its pages and one for their table, or when it succeeds, has given
      every page of the stack a frame that nobody had, no two the same. */
  lemma {:induction false} StackMapped(v: Vm, v1: Vm, o: Owners, o1: Owners, d: nat, fs: seq<nat>, k: nat)
    returns (o': Owners, frames: seq<nat>)
    requires k <= STACK_PAGES && StackDone(v, v1, o, o1, d, fs, k) && Roomy(v1)
    requires FreeFrames(v.pmm) >= STACK_PAGES + 1 || MapStack(v1, d, k).1
    ensures var (v', ok) := MapStack(v1, d, k); ok && StackDone(v, v', o, o', d, frames, STACK_PAGES)
    decreases STACK_PAGES - k
  {
    if k == STACK_PAGES {
      o', frames := o1, fs;
    } else {
      var n := StackUnrolled(v1, d, k);
      if MapStack(v1, d, k).1 {
        StackHadFrames(v1, d, k);
      }
      StackRound(v, v1, o, o1, d, fs, k, n);
      var (v2, a) := Take(v1);
      var v3 := MapPage(v2, d, StackAddress(k), a, USER_WRITABLE);
      o', frames := StackMapped(v, v3, o, MapOwners(v2, o1, d, StackAddress(k)), d, fs + [Page(a)], n);
    }
  }

  lemma {:induction false} StackMapIs(frames: seq<nat>, n: nat, x: nat)
    requires n <= |frames|
    ensures x in StackMap(frames, n) <==> STACK_PAGE <= x < STACK_PAGE + n
    ensures x in StackMap(frames, n) ==> StackMap(frames, n)[x] == Mapping(frames[x - STACK_PAGE], true, true)
    decreases n
  {
    if n > 0 {
      StackMapIs(frames, n - 1, x);
    }
  }

  // ---- the whole address space ------------------------------------------------------------------------

  function AlignDown(a: Word): Word { Page(a) * PAGE_SIZE }

  /** Pages of code; the sum wraps around. */
  function CodePages(size: Word): (n: nat)
    ensures n < PAGES
  {
    ((size + PAGE_SIZE - 1) % TWO_TO_THE_32) / PAGE_SIZE
  }

  lemma DirectoryInRam(v: Vm)
    requires Roomy(v) && InRam(v.mem, Page(v.kernelDir))
    ensures var (v', a) := CreateDirectory(v); a != 0 ==> InRam(v'.mem, Page(a)) && a == Page(a) * PAGE_SIZE
  {
    if HasFrame(v.pmm) {
      var (v1, d) := TakeFrame(v, Zeros());
      Pages(d * PAGE_SIZE, d, 0);
    }
  }

  /** A directory, and whether all of its stack was mapped. */
  datatype Space = Space(vm: Vm, dir: Word, ok: bool)

  /** The mappings proc_create_user makes before the thread exists. */
  function UserSpace(v: Vm, codePhys: Word, codeSize: Word, entry: Word): (r: Space)
    requires Roomy(v) && InRam(v.mem, Page(v.kernelDir))
    ensures Roomy(r.vm) && (r.dir != 0 ==> InRam(r.vm.mem, Page(r.dir)))
  {
    DirectoryInRam(v);
    var (v1, a) := CreateDirectory(v);
    if a == 0 then Space(v1, 0, false) else
      var v2 := MapCode(v1, Page(a), AlignDown(entry), AlignDown(codePhys), CodePages(codeSize));
      var (v3, ok) := MapStack(v2, Page(a), 0);
      Space(v3, a, ok)
  }

  /** All the mappings of proc_create_user keep every frame of data and the memory below the frames, also
      when it runs out of frames on the way. */
  lemma SpaceKeeps(v: Vm, dirs: set<nat>, codePhys: Word, codeSize: Word, entry: Word)
    requires Grounded(v, dirs) && (v.kernelDir != 0 ==> Page(v.kernelDir) in dirs) && InRam(v.mem, Page(v.kernelDir))
    ensures var r := UserSpace(v, codePhys, codeSize, entry); var dirs' := WithDirectory(dirs, r.dir);
      Grounded(r.vm, dirs') && KeepsData(v, r.vm, dirs, dirs') && r.vm.kernelDir == v.kernelDir
  {
    DirectoryInRam(v);
    CreateKeeps(v, dirs);
    var (v1, a) := CreateDirectory(v);
    if a != 0 {
      var d, dirs' := Page(a), WithDirectory(dirs, a);
      CodeKeeps(v1, dirs', d, AlignDown(entry), AlignDown(codePhys), CodePages(codeSize));
      var v2 := MapCode(v1, d, AlignDown(entry), AlignDown(codePhys), CodePages(codeSize));
      StackKeeps(v2, dirs', d, 0);
      KeepsTwice(v, v1, v2, dirs, dirs', dirs');
      KeepsTwice(v, v2, MapStack(v2, d, 0).0, dirs, dirs', dirs');
    }
  }

  /** Frames the mappings may need: the directory, a copy of every kernel table, tables for the code, and
      the stack with its table. */
  function SpaceCost(v: Vm, codeSize: Word, entry: Word): nat
    requires InRam(v.mem, Page(v.kernelDir))
  {
    1 + PresentFrom(v.mem, Page(v.kernelDir), 0) + TablesFor(Page(entry), CodePages(codeSize)) + STACK_PAGES + 1
  }

  /** What the process sees at page x: its stack, its code, or what the kernel has there, for users. */
  function Expected(v: Vm, codePhys: Word, codeSize: Word, entry: Word, frames: seq<nat>, x: nat): Option<Mapping>
    requires InRam(v.mem, Page(v.kernelDir)) && x < PAGES && |frames| == STACK_PAGES
  {
    var k := CodeIndex(entry, x);
    if STACK_PAGE <= x < STACK_PAGE + STACK_PAGES then Some(Mapping(frames[x - STACK_PAGE], true, true))
    else if k < CodePages(codeSize) then Some(Mapping((Page(codePhys) + k) % PAGES, true, true))
    else WithUser(Walk(v.mem, Page(v.kernelDir), x))
  }

  /** The address space is complete: its pages are as expected, its stack frames are distinct, allocated,
      and hold no table of anyone; no other directory has changed. */
  ghost predicate SpaceMade(v: Vm, r: Space, o: Owners, o': Owners, frames: seq<nat>, codePhys: Word, codeSize: Word, entry: Word) {
    && r.ok && r.dir != 0 && InRam(v.mem, Page(v.kernelDir)) && |frames| == STACK_PAGES
    && var d := Page(r.dir);
    && d !in o.dirs && o'.dirs == o.dirs + {d} && Separated(r.vm, o') && InRam(r.vm.mem, d)
    && (forall x: nat {:trigger Walk(r.vm.mem, d, x)} :: x < PAGES ==>
          Walk(r.vm.mem, d, x) == Expected(v, codePhys, codeSize, entry, frames, x))
    && OtherDirsSame(v, r.vm, o, d)
    && Distinct(frames)
    && (forall k {:trigger frames[k]} :: 0 <= k < STACK_PAGES ==> Held(r.vm, o'.dirs, frames[k]))
  }

  lemma OtherDirsSub(v: Vm, v': Vm, o: Owners, o': Owners, d: nat)
    requires OtherDirsSame(v, v', o', d) && o.dirs <= o'.dirs
    ensures OtherDirsSame(v, v', o, d)
  {
    forall e, x: nat | e in o.dirs && e != d && x < PAGES ensures SameWalk(v, v', e, x) { }
  }

  lemma Aligned(a: Word)
    ensures AlignDown(a) % PAGE_SIZE == 0 && Page(AlignDown(a)) == Page(a)
  {
    Pages(AlignDown(a), Page(a), 0);
  }

  /** Code and stack on top of a clone of the kernel's directory, at one page. */
  lemma ExpectedIs(v: Vm, frames: seq<nat>, codePhys: Word, codeSize: Word, entry: Word, x: nat)
    requires |frames| == STACK_PAGES && InRam(v.mem, Page(v.kernelDir)) && x < PAGES
    ensures var m := CodeMap(AlignDown(entry), AlignDown(codePhys), CodePages(codeSize)) + StackMap(frames, STACK_PAGES);
      Expected(v, codePhys, codeSize, entry, frames, x) == if x in m then Some(m[x]) else WithUser(Walk(v.mem, Page(v.kernelDir), x))
  {
    Aligned(entry);
    Aligned(codePhys);
    CodeMapIs(AlignDown(entry), AlignDown(codePhys), CodePages(codeSize), x);
    StackMapIs(frames, STACK_PAGES, x);
  }

  lemma SpaceWalks(v: Vm, v1: Vm, v3: Vm, o1: Owners, o3: Owners, d: nat, frames: seq<nat>,
                   codePhys: Word, codeSize: Word, entry: Word)
    requires |frames| == STACK_PAGES && InRam(v.mem, Page(v.kernelDir)) && InRam(v1.mem, d)
    requires forall x: nat {:trigger Walk(v1.mem, d, x)} :: x < PAGES ==> Walk(v1.mem, d, x) == WithUser(Walk(v.mem, Page(v.kernelDir), x))
    requires Maps(v1, v3, o1, o3, d,
                  CodeMap(AlignDown(entry), AlignDown(codePhys), CodePages(codeSize)) + StackMap(frames, STACK_PAGES))
    ensures forall x: nat {:trigger Walk(v3.mem, d, x)} :: x < PAGES ==>
      Walk(v3.mem, d, x) == Expected(v, codePhys, codeSize, entry, frames, x)
  {
    forall x: nat | x < PAGES ensures Walk(v3.mem, d, x) == Expected(v, codePhys, codeSize, entry, frames, x) {
      ExpectedIs(v, frames, codePhys, codeSize, entry, x);
      assert Walk(v1.mem, d, x) == WithUser(Walk(v.mem, Page(v.kernelDir), x));
    }
  }

  /** An address space whose stack was mapped had frames for all that was mapped before. */
  lemma OkHadFrames(v: Vm, o: Owners, codePhys: Word, codeSize: Word, entry: Word)
    requires Separated(v, o) && KernelDir(v, o, Page(v.kernelDir)) && InRam(v.mem, Page(v.kernelDir)) && Roomy(v)
    requires UserSpace(v, codePhys, codeSize, entry).ok
    ensures FreeFrames(v.pmm) >= 1 + PresentFrom(v.mem, Page(v.kernelDir), 0)
    ensures var (v1, a) := CreateDirectory(v);
      && a != 0 && InRam(v1.mem, Page(a))
      && var v2 := MapCode(v1, Page(a), AlignDown(entry), AlignDown(codePhys), CodePages(codeSize));
      FreeFrames(v2.pmm) > 0 && MapStack(v2, Page(a), 0).1
  {
    DirectoryInRam(v);
    var (v1, a) := CreateDirectory(v);
    var v2 := MapCode(v1, Page(a), AlignDown(entry), AlignDown(codePhys), CodePages(codeSize));
    StackHadFrames(v2, Page(a), 0);
    CodeTakes(v1, Page(a), AlignDown(entry), AlignDown(codePhys), 0, CodePages(codeSize));
    DirectoryEnough(v, o, Page(v.kernelDir));
  }

  /** With frames enough, and also, however many frames there were, whenever it does not give up, proc_create_user
      gives the process exactly the address space it is meant to have, and disturbs no other: the mappings that
      fail without a word are never those of a process that is created. */
  lemma UserSpaceMade(v: Vm, o: Owners, codePhys: Word, codeSize: Word, entry: Word) returns (o': Owners, frames: seq<nat>)
    requires Separated(v, o) && KernelDir(v, o, Page(v.kernelDir)) && InRam(v.mem, Page(v.kernelDir))
    requires FreeFrames(v.pmm) >= SpaceCost(v, codeSize, entry) || UserSpace(v, codePhys, codeSize, entry).ok
    ensures SpaceMade(v, UserSpace(v, codePhys, codeSize, entry), o, o', frames, codePhys, codeSize, entry)
    ensures FreeFrames(UserSpace(v, codePhys, codeSize, entry).vm.pmm) >= FreeFrames(v.pmm) - SpaceCost(v, codeSize, entry)
  {
    var virt, phys, n := AlignDown(entry), AlignDown(codePhys), CodePages(codeSize);
    DirectoryInRam(v);
    Aligned(entry);
    if UserSpace(v, codePhys, codeSize, entry).ok {
      OkHadFrames(v, o, codePhys, codeSize, entry);
    }
    var o1 := DirectoryCloned(v, o, Page(v.kernelDir));
    var (v1, a) := CreateDirectory(v);
    var d := Page(a);
    o', frames := CodeAndStack(v1, o1, d, virt, phys, n);
    var v3 := MapStack(MapCode(v1, d, virt, phys, n), d, 0).0;
    SpaceWalks(v, v1, v3, o1, o', d, frames, codePhys, codeSize, entry);
    OtherDirsSub(v1, v3, o, o1, d);
    OtherDirsTwice(v, v1, v3, o, d);
  }

  /** Code and stack, in a directory that is there. */
  lemma CodeAndStack(v: Vm, o: Owners, d: nat, virt: Word, phys: Word, n: nat) returns (o': Owners, frames: seq<nat>)
    requires Separated(v, o) && d in o.dirs && virt % PAGE_SIZE == 0 && Roomy(v) && InRam(v.mem, d)
    requires FreeFrames(v.pmm) >= TablesFor(Page(virt), n) + STACK_PAGES + 1
      || (FreeFrames(MapCode(v, d, virt, phys, n).pmm) > 0 && MapStack(MapCode(v, d, virt, phys, n), d, 0).1)
    ensures var (v', ok) := MapStack(MapCode(v, d, virt, phys, n), d, 0);
      && ok && |frames| == STACK_PAGES && Distinct(frames)
      && Maps(v, v', o, o', d, CodeMap(virt, phys, n) + StackMap(frames, STACK_PAGES))
      && FreeFrames(v'.pmm) >= FreeFrames(v.pmm) - TablesFor(Page(virt), n) - STACK_PAGES - 1
      && forall k {:trigger frames[k]} :: 0 <= k < STACK_PAGES ==> Held(v', o'.dirs, frames[k])
  {
    var o1 := CodeMapped(v, o, d, virt, phys, n);
    var v1 := MapCode(v, d, virt, phys, n);
    MapsNothing(v1, o1, d);
    o', frames := StackMapped(v1, v1, o1, o1, d, [], 0);
    MapsTwice(v, v1, MapStack(v1, d, 0).0, o, o1, o', d, CodeMap(virt, phys, n), StackMap(frames, STACK_PAGES));
  }

  // ---- the thunk page -----------------------------------------------------------------------------------

  const THUNK: Word := 0x10_6000

  /** The last mapping: a page of kernel code, for users to execute. */
  function WithThunk(v: Vm, d: nat): (v': Vm)
    requires Roomy(v) && InRam(v.mem, d)
    ensures Roomy(v')
  {
    MapPage(v, d, THUNK, THUNK, USER_READABLE)
  }

  /** As present and user, with no other flag. */
  lemma ThunkMapped(v: Vm, d: nat)
    requires Roomy(v) && InRam(v.mem, d)
    ensures WithThunk(v, d) == MapPage(v, d, 0x10_6000, 0x10_6000, 5)
  {
  }

  /** Page x of the finished address space. */
  function Final(v: Vm, codePhys: Word, codeSize: Word, entry: Word, frames: seq<nat>, x: nat): Option<Mapping>
    requires InRam(v.mem, Page(v.kernelDir)) && x < PAGES && |frames| == STACK_PAGES
  {
    if x == THUNK_PAGE then Some(Mapping(THUNK_PAGE, false, true)) else Expected(v, codePhys, codeSize, entry, frames, x)
  }

  /** A frame of data taken for the kernel stack leaves room for the thunk page. */
  lemma ThunkRoom(v3: Vm, v4: Vm, n: nat, o: Owners, d: nat)
    requires Separated(v3, o) && d in o.dirs && Next(v3, v4.pmm, n) && |v4.mem| == |v3.mem| && InRam(v3.mem, n)
    requires forall w :: 0 <= w < |v4.mem| && !(n * ENTRIES <= w < n * ENTRIES + ENTRIES) ==> v4.mem[w] == v3.mem[w]
    requires InRam(v3.mem, d) && (FreeFrames(v3.pmm) >= 2 || Present(Peek(v3.mem, d, THUNK_PAGE / ENTRIES)))
    ensures |v4.pmm.bits| == Pmm.MAX_FRAMES && v4.pmm.total <= Pmm.MAX_FRAMES
    ensures FreeFrames(v4.pmm) > 0 || Present(Peek(v4.mem, d, THUNK_PAGE / ENTRIES))
  {
    TakeFrameCounts(v3, Zeros());
    NextIsFresh(v3, o, v4.pmm, n);
    assert Peek(v4.mem, d, THUNK_PAGE / ENTRIES) == Peek(v3.mem, d, THUNK_PAGE / ENTRIES);
  }

  lemma ThunkIs()
    ensures Page(THUNK) == THUNK_PAGE && !Writable(USER_READABLE) && User(USER_READABLE) && IsFlags(USER_READABLE)
  {
  }

  /** A frame of data and the thunk page, on top of a finished stack. */
  lemma ThunkMaps(v3: Vm, v4: Vm, n: nat, o: Owners, d: nat) returns (o': Owners)
    requires Separated(v3, o) && d in o.dirs && Next(v3, v4.pmm, n) && v4.kernelDir == v3.kernelDir && |v4.mem| == |v3.mem| && InRam(v3.mem, n)
    requires forall w :: 0 <= w < |v4.mem| && !(n * ENTRIES <= w < n * ENTRIES + ENTRIES) ==> v4.mem[w] == v3.mem[w]
    requires InRam(v3.mem, d) && (FreeFrames(v3.pmm) >= 2 || Present(Peek(v3.mem, d, THUNK_PAGE / ENTRIES)))
    ensures InRam(v4.mem, d) && Roomy(v4)
    ensures Maps(v3, WithThunk(v4, d), o, o', d, map[THUNK_PAGE := Mapping(THUNK_PAGE, false, true)])
  {
    DataMaps(v3, v4, o, d, n);
    ThunkRoom(v3, v4, n, o, d);
    ThunkIs();
    MapsOne(v4, o, d, THUNK, THUNK, USER_READABLE);
    o' := MapOwners(v4, o, d, THUNK);
    var m := map[THUNK_PAGE := Mapping(THUNK_PAGE, false, true)];
    MapsTwice(v3, v4, WithThunk(v4, d), o, o, o', d, map[], m);
    assert map[] + m == m;
  }

  /** The finished address space: the kernel stack takes one more frame, and the thunk page is the process's to
      read; where the kernel has that page, its table is there, and no frame is needed for it. */
  lemma SpaceFinished(v: Vm, r: Space, v4: Vm, n: nat, o: Owners, o': Owners, frames: seq<nat>,
                      codePhys: Word, codeSize: Word, entry: Word) returns (o'': Owners)
    requires Separated(v, o) && SpaceMade(v, r, o, o', frames, codePhys, codeSize, entry)
    requires Next(r.vm, v4.pmm, n) && v4.kernelDir == r.vm.kernelDir && |v4.mem| == |r.vm.mem| && InRam(r.vm.mem, n)
    requires forall w :: 0 <= w < |v4.mem| && !(n * ENTRIES <= w < n * ENTRIES + ENTRIES) ==> v4.mem[w] == r.vm.mem[w]
    requires FreeFrames(r.vm.pmm) >= 2 || Walk(v.mem, Page(v.kernelDir), THUNK_PAGE).Some?
    ensures InRam(v4.mem, Page(r.dir)) && Roomy(v4)
    ensures var v5, d := WithThunk(v4, Page(r.dir)), Page(r.dir);
      && Separated(v5, o'') && o''.dirs == o'.dirs && InRam(v5.mem, d)
      && (forall x: nat {:trigger Walk(v5.mem, d, x)} :: x < PAGES ==>
            Walk(v5.mem, d, x) == Final(v, codePhys, codeSize, entry, frames, x))
      && OtherDirsSame(v, v5, o, d)
  {
    var d := Page(r.dir);
    assert Walk(r.vm.mem, d, THUNK_PAGE) == Expected(v, codePhys, codeSize, entry, frames, THUNK_PAGE);
    o'' := ThunkMaps(r.vm, v4, n, o', d);
    var v5 := WithThunk(v4, d);
    OtherDirsSub(r.vm, v5, o, o', d);
    OtherDirsTwice(v, r.vm, v5, o, d);
    forall x: nat | x < PAGES ensures Walk(v5.mem, d, x) == Final(v, codePhys, codeSize, entry, frames, x) {
      assert Walk(r.vm.mem, d, x) == Expected(v, codePhys, codeSize, entry, frames, x);
    }
  }

  // ---- over the kernel's identity map -------------------------------------------------------------------

  /** Where page x of the address space lies in the code, if it does. */
  function CodeIndex(entry: Word, x: nat): nat
    requires x < PAGES
  {
    (x + PAGES - Page(entry)) % PAGES
  }

  /** A page that the kernel has at its own address, other than the thunk page and those of the user stack,
      is there in the process's directory too exactly when no page of code lies over it, or that very page. */
  lemma SelfMappedIff(v: Vm, codePhys: Word, codeSize: Word, entry: Word, frames: seq<nat>, x: nat)
    requires InRam(v.mem, Page(v.kernelDir)) && |frames| == STACK_PAGES
    requires x < PAGES && x != THUNK_PAGE && !(STACK_PAGE <= x < STACK_PAGE + STACK_PAGES)
    requires Walk(v.mem, Page(v.kernelDir), x) == Some(Mapping(x, true, false))
    ensures Final(v, codePhys, codeSize, entry, frames, x) == Some(Mapping(x, true, true)) <==>
      (CodeIndex(entry, x) < CodePages(codeSize) ==> (Page(codePhys) + CodeIndex(entry, x)) % PAGES == x)
  {
  }

  /** Page x of the finished address space of a process, when the kernel's directory is the identity map. */
  function Shown(codePhys: Word, codeSize: Word, entry: Word, frames: seq<nat>, x: nat): Option<Mapping>
    requires x < PAGES && |frames| == STACK_PAGES
  {
    var k := CodeIndex(entry, x);
    if x == THUNK_PAGE then Some(Mapping(x, false, true))
    else if STACK_PAGE <= x < STACK_PAGE + STACK_PAGES then Some(Mapping(frames[x - STACK_PAGE], true, true))
    else if k < CodePages(codeSize) then Some(Mapping((Page(codePhys) + k) % PAGES, true, true))
    else if x < IdentityMap.IDENTITY_PAGES then Some(Mapping(x, true, true)) else None
  }

  lemma FinalShown(v: Vm, k: nat, codePhys: Word, codeSize: Word, entry: Word, frames: seq<nat>, x: nat)
    requires IdentityMap.IdentityUpTo(v, k, IdentityMap.IDENTITY_PAGES) && k == Page(v.kernelDir) && x < PAGES && |frames| == STACK_PAGES
    ensures Final(v, codePhys, codeSize, entry, frames, x) == Shown(codePhys, codeSize, entry, frames, x)
  {
    assert Walk(v.mem, k, x) == if x < IdentityMap.IDENTITY_PAGES then Some(Mapping(x, true, false)) else None;
  }

  /** Both directories as they should be: the kernel's with the first 128 MB at their own addresses, the
      process's with its stack, its code, the thunk page, and otherwise what the kernel has. */
  ghost predicate SpacesShow(mem: Memory, k: nat, d: nat, codePhys: Word, codeSize: Word, entry: Word, frames: seq<nat>) {
    && InRam(mem, k) && InRam(mem, d) && k != d && |frames| == STACK_PAGES && Distinct(frames)
    && (forall x: nat {:trigger Walk(mem, k, x)} :: x < PAGES ==>
          Walk(mem, k, x) == if x < IdentityMap.IDENTITY_PAGES then Some(Mapping(x, true, false)) else None)
    && (forall x: nat {:trigger Walk(mem, d, x)} :: x < PAGES ==> Walk(mem, d, x) == Shown(codePhys, codeSize, entry, frames, x))
  }
}
