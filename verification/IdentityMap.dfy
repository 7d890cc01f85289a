/** vmm_init: the kernel's directory maps the first 128 MB to itself. */
module IdentityMap {
  import opened Basics
  import opened Paging
  import opened AddressSpaces
  import opened FrameUse
  import Pmm

  const IDENTITY_PAGES := 32768   // 128 MB
  const KERNEL_FLAGS: Word := 3   // present and writable

  function Addr(n: nat): Word
    requires n < 0x10_0000
  {
    n * PAGE_SIZE
  }

  /** The mapping loop of vmm_init after n rounds. */
  function MapUpTo(v: Vm, k: nat, n: nat): (v': Vm)
    requires Roomy(v) && InRam(v.mem, k) && n <= IDENTITY_PAGES
    ensures Roomy(v') && |v'.mem| == |v.mem| && v'.kernelDir == v.kernelDir
    decreases n
  {
    if n == 0 then v
    else MapPage(MapUpTo(v, k, n - 1), k, Addr(n - 1), Addr(n - 1), KERNEL_FLAGS)
  }

  /** One round of the mapping loop. */
  lemma Unrolled(v: Vm, v1: Vm, k: nat, n: nat) returns (n': nat)
    requires Roomy(v) && InRam(v.mem, k) && n < IDENTITY_PAGES && v1 == MapUpTo(v, k, n)
    ensures n' == n + 1 && MapPage(v1, k, Addr(n), Addr(n), KERNEL_FLAGS) == MapUpTo(v, k, n')
  {
    n' := n + 1;
  }

  /** The n-th round maps the n-th page to itself, present and writable, with no other flag. */
  lemma RoundMaps(v: Vm, k: nat, n: nat)
    requires Roomy(v) && InRam(v.mem, k) && n < 0x8000
    ensures MapUpTo(v, k, n + 1) == MapPage(MapUpTo(v, k, n), k, n * 4096, n * 4096, 3)
  {
  }

  /** vmm_init, up to the load of CR3 */
  function InitVm(v: Vm): (v': Vm)
    requires Roomy(v) && HasFrame(v.pmm)
    ensures Roomy(v')
  {
    var (v1, k) := TakeFrame(v, Zeros());
    MapUpTo(v1.(kernelDir := Addr(k)), k, IDENTITY_PAGES)
  }

  /** Tables needed for the first n pages. */
  function Tables(n: nat): nat { (n + ENTRIES - 1) / ENTRIES }

  /** Exactly the first n pages are mapped, each to itself, writable, not for users; and exactly the
      entries they need are present. */
  predicate IdentityUpTo(v: Vm, k: nat, n: nat) {
    && InRam(v.mem, k)
    && (forall x: nat {:trigger Walk(v.mem, k, x)} :: x < 0x10_0000 ==>
          Walk(v.mem, k, x) == if x < n then Some(Mapping(x, true, false)) else None)
    && (forall i: nat {:trigger Peek(v.mem, k, i)} :: i < ENTRIES ==> (Present(Peek(v.mem, k, i)) <==> i < Tables(n)))
  }

  /** What a mapping costs, and which entries of its directory become present. */
  lemma MapCost(v: Vm, o: Owners, d: nat, virt: Word, phys: Word, flags: Word, j: nat)
    requires Separated(v, o) && d in o.dirs && IsFlags(flags) && j < ENTRIES
    ensures InRam(v.mem, d)
    ensures var v' := MapPage(v, d, virt, phys, flags); var i := Page(virt) / ENTRIES;
      && FreeFrames(v'.pmm) == FreeFrames(v.pmm) - (if !Present(Peek(v.mem, d, i)) && HasFrame(v.pmm) then 1 else 0)
      && (Present(Peek(v'.mem, d, j)) <==> Present(Peek(v.mem, d, j)) || (i == j && HasFrame(v.pmm)))
  {
    assert DirOk(v, o, d);
    var i := Page(virt) / ENTRIES;
    var pde := Peek(v.mem, d, i);
    assert EntryOk(v, o, d, i);
    var v1 := if Present(pde) && User(flags) then Widened(v, d, i, Propagated(pde, flags)) else v;
    PeekPoke(v.mem, d, i, Propagated(pde, flags), d, j);
    PeekPoke(v.mem, d, i, Propagated(pde, flags), d, i);
    var f := OrWritable(OrPresent(flags));
    var (v2, t) := GetOrCreateTable(v1, d, i, f);
    var w := Entry(Page(phys), OrPresent(flags));
    if !Present(pde) {
      TakeFrameCounts(v, Zeros());
      if HasFrame(v.pmm) {
        var (v3, n) := TakeFrame(v, Zeros());
        NextIsFresh(v, o, v3.pmm, n);
        FilledEntry(v, o, v3.pmm, n, Zeros(), d, j);
        PeekPoke(v3.mem, d, i, Entry(n, OrPresent(f)), d, j);
        PeekPoke(v2.mem, n, Page(virt) % ENTRIES, w, d, j);
      }
    } else {
      PeekPoke(v2.mem, Page(pde), Page(virt) % ENTRIES, w, d, j);
    }
  }

  lemma NextTables(n: nat)
    ensures Tables(n + 1) == if n % ENTRIES == 0 then Tables(n) + 1 else Tables(n)
    ensures n % ENTRIES == 0 ==> Tables(n) == n / ENTRIES
    ensures n % ENTRIES != 0 ==> n / ENTRIES < Tables(n)
  {
    var q, r := n / ENTRIES, n % ENTRIES;
    assert n == ENTRIES * q + r;
    assert n + ENTRIES == ENTRIES * (q + 1) + r;
  }

  /** The loop that started from v has mapped n pages and is in state v', with owners o. */
  predicate Mapped(v: Vm, v': Vm, o: Owners, k: nat, n: nat) {
    && Roomy(v) && Separated(v', o) && o.dirs == {k} && IdentityUpTo(v', k, n)
    && FreeFrames(v'.pmm) == FreeFrames(v.pmm) - Tables(n)
  }

  /** One round of the loop extends the identity map by one page. */
  lemma IdentityRound(v0: Vm, v: Vm, o: Owners, k: nat, n: nat, n': nat) returns (o': Owners)
    requires Mapped(v0, v, o, k, n) && n < IDENTITY_PAGES && n' == n + 1
    requires FreeFrames(v0.pmm) >= Tables(n')
    ensures Mapped(v0, MapPage(v, k, Addr(n), Addr(n), KERNEL_FLAGS), o', k, n')
  {
    Pages(Addr(n), n, 0);
    var v' := MapPage(v, k, Addr(n), Addr(n), KERNEL_FLAGS);
    o' := MapOwners(v, o, k, Addr(n));
    NextTables(n);
    TakeFrameCounts(v, Zeros());
    assert Peek(v.mem, k, n / ENTRIES) == Peek(v.mem, k, n / ENTRIES);
    MapIsolation(v, o, k, Addr(n), Addr(n), KERNEL_FLAGS);
    MapCost(v, o, k, Addr(n), Addr(n), KERNEL_FLAGS, 0);
    forall x: nat | x < 0x10_0000
      ensures Walk(v'.mem, k, x) == if x < n' then Some(Mapping(x, true, false)) else None
    {
      assert x != n ==> SameWalk(v, v', k, x);
    }
    forall i: nat | i < ENTRIES ensures Present(Peek(v'.mem, k, i)) <==> i < Tables(n') {
      MapCost(v, o, k, Addr(n), Addr(n), KERNEL_FLAGS, i);
    }
  }

  lemma FewerTables(i: nat, n: nat)
    requires i <= n
    ensures Tables(i) <= Tables(n)
  {
  }

  lemma IdentityRounds(v: Vm, o: Owners, k: nat, n: nat) returns (o': Owners)
    requires Mapped(v, v, o, k, 0) && n <= IDENTITY_PAGES && FreeFrames(v.pmm) >= Tables(n)
    ensures Mapped(v, MapUpTo(v, k, n), o', k, n)
  {
    o' := o;
    var i, v1 := 0, v;
    while i < n
      invariant i <= n && v1 == MapUpTo(v, k, i) && Mapped(v, v1, o', k, i)
    {
      var i' := Unrolled(v, v1, k, i);
      FewerTables(i', n);
      o' := IdentityRound(v, v1, o', k, i, i');
      i, v1 := i', MapPage(v1, k, Addr(i), Addr(i), KERNEL_FLAGS);
    }
  }

  lemma {:induction false} PresentPrefix(mem: Memory, k: nat, i: nat, n: nat)
    requires InRam(mem, k) && i <= n <= ENTRIES
    requires forall j: nat {:trigger Peek(mem, k, j)} :: j < ENTRIES ==> (Present(Peek(mem, k, j)) <==> j < n)
    ensures PresentFrom(mem, k, i) == n - i
    decreases ENTRIES - i
  {
    if i < n {
      PresentPrefix(mem, k, i + 1, n);
    } else {
      PresentNone(mem, k, i, n);
    }
  }

  lemma {:induction false} PresentNone(mem: Memory, k: nat, i: nat, n: nat)
    requires InRam(mem, k) && n <= i <= ENTRIES
    requires forall j: nat {:trigger Peek(mem, k, j)} :: j < ENTRIES ==> (Present(Peek(mem, k, j)) <==> j < n)
    ensures PresentFrom(mem, k, i) == 0
    decreases ENTRIES - i
  {
    if i < ENTRIES {
      PresentNone(mem, k, i + 1, n);
    }
  }

  /** The identity map: from 33 free frames or more, vmm_init takes exactly 33; afterwards every page
      below 128 MB translates to itself, writable and not for users, and no other page is mapped. */
  lemma IdentityMapped(v: Vm) returns (o: Owners, k: nat)
    requires Roomy(v) && FreeFrames(v.pmm) >= 33
    ensures HasFrame(v.pmm)
    ensures var v' := InitVm(v);
      && Separated(v', o) && KernelDir(v', o, k) && o.dirs == {k}
      && IdentityUpTo(v', k, 0x8000)
      && FreeFrames(v'.pmm) == FreeFrames(v.pmm) - 33
      && PresentFrom(v'.mem, k, 0) == 32
  {
    var none := Owners({}, map[]);
    TakeFrameCounts(v, Zeros());
    var (v1, d) := TakeFrame(v, Zeros());
    k := d;
    NewDirectory(v, none);
    NextIsFresh(v, none, v1.pmm, k);
    Pages(Addr(k), k, 0);
    var v2 := v1.(kernelDir := Addr(k));
    var o1 := none.(dirs := {k});
    assert none.dirs + {k} == {k};
    Renamed(v1, v2, o1);
    assert IdentityUpTo(v2, k, 0);
    o := IdentityRounds(v2, o1, k, IDENTITY_PAGES);
    PresentPrefix(InitVm(v).mem, k, 0, 32);
  }

  lemma Renamed(v: Vm, v': Vm, o: Owners)
    requires Separated(v, o) && v' == v.(kernelDir := v'.kernelDir)
    ensures Separated(v', o)
  {
    forall d | d in o.dirs ensures DirOk(v', o, d) {
      assert DirOk(v, o, d);
      forall i: nat | i < ENTRIES ensures EntryOk(v', o, d, i) {
        assert EntryOk(v, o, d, i);
      }
    }
  }

  /** Every frame the allocator can ever hand out is mapped to itself, so the kernel may use a
      physical address as a pointer. */
  lemma PointersSound(v: Vm, k: nat, p: Pmm.Pmm)
    requires IdentityUpTo(v, k, IDENTITY_PAGES)
    requires Pmm.WellFormed(p) && p.total <= RAM_PAGES - FIRST_PAGE && Pmm.Alloc(p).1 != 0
    ensures Page(Pmm.Alloc(p).1) < 0x10_0000
    ensures Walk(v.mem, k, Page(Pmm.Alloc(p).1)) == Some(Mapping(Page(Pmm.Alloc(p).1), true, false))
  {
    Pmm.AllocGivesLowest(p);
  }

  // ---- a shortage of frames ---------------------------------------------------------------------------

  /** When vmm_init leaves at least one frame and at most 32, the next directory shares a table with the
      kernel's, and a page a process then maps there appears in the kernel. */
  lemma BootShortage(v: Vm, phys: Word, flags: Word) returns (k: nat, virt: Word)
    requires Roomy(v) && 34 <= FreeFrames(v.pmm) <= 65 && IsFlags(flags)
    ensures HasFrame(v.pmm) && Leaks(InitVm(v), k, virt, phys, flags)
  {
    var o;
    o, k := IdentityMapped(v);
    TakeFrameCounts(InitVm(v), Zeros());
    virt := ShortageLeaks(InitVm(v), o, k, phys, flags);
  }

  /** Such memory exists: with 7304 KB above the first megabyte there are 34 frames. */
  lemma ShortagePossible(mem: Memory)
    requires |mem| >= RAM_PAGES * ENTRIES
    ensures Pmm.ManagedFrames(7304) == 34
    ensures var v := Vm(mem, Pmm.Pmm(34, 0, seq(Pmm.MAX_FRAMES, f => f >= 34)), 0); Roomy(v) && FreeFrames(v.pmm) == 34
  {
    Pmm.TakenNone(seq(Pmm.MAX_FRAMES, f => f >= 34), 34);
  }
}
