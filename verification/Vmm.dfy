/**
 The virtual memory manager on real memory: page directories and tables are frames of RAM, written
 in place through their physical addresses.  Every operation is proved equal to its counterpart in
 AddressSpaces or IdentityMap.
 */
module Vmm {
  import opened Basics
  import opened Paging
  import opened AddressSpaces
  import opened FrameUse
  import IdentityMap
  import Pmm

  class Manager {
    const ram: array<Word>
    const pmm: Pmm.FrameAllocator
    var kernelDir: Word

    constructor (ram: array<Word>, pmm: Pmm.FrameAllocator)
      ensures this.ram == ram && this.pmm == pmm && kernelDir == 0
    {
      this.ram, this.pmm, kernelDir := ram, pmm, 0;
    }

    ghost function Abs(): Vm
      reads this, ram, pmm, pmm.bitmap
      requires pmm.Valid()
    {
      Vm(ram[..], pmm.Abs(), kernelDir)
    }

    ghost predicate Valid()
      reads this, ram, pmm, pmm.bitmap
    {
      pmm.Valid() && ram as object != pmm.bitmap && Roomy(Abs())
    }

    /** A pointer to the page table or directory in page n. */
    ghost predicate Points(addr: Word, n: nat) {
      addr == n * PAGE_SIZE && Page(addr) == n && n * ENTRIES + ENTRIES <= ram.Length
    }

    /** Clears the table at address table. */
    method ClearTable(table: Word, ghost n: nat)
      requires Points(table, n)
      modifies ram
      ensures InRam(old(ram[..]), n) && ram[..] == SetPage(old(ram[..]), n, Zeros())
    {
      for i := 0 to ENTRIES
        invariant forall w :: 0 <= w < ram.Length ==>
          ram[w] == if n * ENTRIES <= w < n * ENTRIES + i then 0 else old(ram[w])
      {
        ram[table / 4 + i] := 0;
      }
    }

    /** get_or_create_table: the address of the table, 0 for NULL. */
    method GetOrCreateTable(dir: Word, i: nat, flags: Word) returns (table: Word)
      requires Valid() && Points(dir, Page(dir)) && TableInRam(Abs(), Page(dir), i) && IsFlags(flags)
      modifies ram, pmm`used, pmm.bitmap
      ensures Valid()
      ensures (Abs(), if table == 0 then None else Some(Page(table))) ==
              AddressSpaces.GetOrCreateTable(old(Abs()), Page(dir), i, flags)
      ensures table != 0 ==> Points(table, Page(table))
    {
      ghost var v, d := Abs(), Page(dir);
      var pde := ram[dir / 4 + i];
      assert pde == Peek(v.mem, d, i);
      if Present(pde) {
        Pages(Page(pde) * PAGE_SIZE, Page(pde), 0);
        return Page(pde) * PAGE_SIZE;
      }
      var phys := ClearedFrame();
      if phys == 0 { return 0; }
      SetEntry(dir, i, Entry(Page(phys), OrPresent(flags)));
      return phys;
    }

    /** The first half of vmm_map_page: a present directory entry gains the rights of a user mapping. */
    method Propagate(dir: Word, pdi: nat, flags: Word)
      requires Valid() && Points(dir, Page(dir)) && TableInRam(Abs(), Page(dir), pdi) && IsFlags(flags)
      modifies ram
      ensures Valid() && TableInRam(Abs(), Page(dir), pdi)
      ensures var v := old(Abs()); var d := Page(dir);
        && InRam(v.mem, d)
        && var pde := Peek(v.mem, d, pdi);
        Abs() == if Present(pde) && User(flags) then Widened(v, d, pdi, Propagated(pde, flags)) else v
    {
      ghost var v, d := Abs(), Page(dir);
      var pde := ram[dir / 4 + pdi];
      assert pde == Peek(v.mem, d, pdi);
      if Present(pde) && User(flags) {
        ram[dir / 4 + pdi] := OrUser(ram[dir / 4 + pdi]);
        if Writable(flags) {
          ram[dir / 4 + pdi] := OrWritable(ram[dir / 4 + pdi]);
        }
        assert ram[..] == Poke(v.mem, d, pdi, Propagated(pde, flags));
      }
    }

    method SetEntry(table: Word, j: nat, w: Word)
      requires pmm.Valid() && ram as object != pmm.bitmap && Points(table, Page(table)) && j < ENTRIES
      modifies ram
      ensures InRam(old(Abs()).mem, Page(table)) && Abs() == Written(old(Abs()), Page(table), j, w)
    {
      ghost var v := Abs();
      ram[table / 4 + j] := w;
      assert ram[..] == Poke(v.mem, Page(table), j, w);
    }

    /** vmm_map_page */
    method MapPage(dir: Word, virt: Word, phys: Word, flags: Word)
      requires Valid() && Points(dir, Page(dir)) && TableInRam(Abs(), Page(dir), Page(virt) / ENTRIES) && IsFlags(flags)
      modifies ram, pmm`used, pmm.bitmap
      ensures Valid() && Abs() == AddressSpaces.MapPage(old(Abs()), Page(dir), virt, phys, flags)
    {
      var pdi := Page(virt) / ENTRIES;
      var pti := Page(virt) % ENTRIES;
      Propagate(dir, pdi, flags);
      var table := GetOrCreateTable(dir, pdi, OrWritable(OrPresent(flags)));
      if table == 0 { return; }
      SetEntry(table, pti, Entry(Page(phys), OrPresent(flags)));
    }

    /** vmm_unmap_page */
    method UnmapPage(dir: Word, virt: Word)
      requires Valid() && Points(dir, Page(dir)) && TableInRam(Abs(), Page(dir), Page(virt) / ENTRIES)
      modifies ram
      ensures Valid() && Abs() == AddressSpaces.UnmapPage(old(Abs()), Page(dir), virt)
    {
      ghost var v, d := Abs(), Page(dir);
      var pdi := Page(virt) / ENTRIES;
      var pti := Page(virt) % ENTRIES;
      var pde := ram[dir / 4 + pdi];
      assert pde == Peek(v.mem, d, pdi);
      if !Present(pde) { return; }
      var table := Page(pde) * PAGE_SIZE;
      ram[table / 4 + pti] := 0;
      assert ram[..] == Poke(v.mem, Page(pde), pti, 0);
    }

    /** The inner copying loop of vmm_create_directory. */
    method CopyTable(orig: Word, copy: Word, ghost t: nat, ghost n: nat)
      requires Points(orig, t) && Points(copy, n) && t != n
      modifies ram
      ensures InRam(old(ram[..]), n) && InRam(old(ram[..]), t)
      ensures ram[..] == SetPage(old(ram[..]), n, UserCopy(old(ram[..]), t))
    {
      for j := 0 to ENTRIES
        invariant forall w :: 0 <= w < ram.Length ==>
          ram[w] == if n * ENTRIES <= w < n * ENTRIES + j then OrUser(old(ram[w - n * ENTRIES + t * ENTRIES])) else old(ram[w])
      {
        ram[copy / 4 + j] := OrUser(ram[orig / 4 + j]);
      }
    }

    /** One round of the copying loop of vmm_create_directory. */
    method CloneEntry(dir: Word, i: nat, ghost k: nat, ghost d: nat)
      requires Valid() && Points(dir, d) && Points(kernelDir, k) && i < ENTRIES && Copyable(Abs(), k, d)
      modifies ram, pmm`used, pmm.bitmap
      ensures Valid() && Abs() == AddressSpaces.CloneEntry(old(Abs()), k, d, i)
    {
      ghost var v := Abs();
      var pde := ram[kernelDir / 4 + i];
      assert pde == Peek(v.mem, k, i);
      if !Present(pde) {
        SetEntry(dir, i, 0);
        return;
      }
      var phys := pmm.AllocFrame();
      if phys == 0 {
        SetEntry(dir, i, OrUser(pde));
        return;
      }
      NextIsFresh(v, Owners({}, map[]), pmm.Abs(), Page(phys));
      Pages(Page(pde) * PAGE_SIZE, Page(pde), 0);
      CopyTable(Page(pde) * PAGE_SIZE, phys, Page(pde), Page(phys));
      SetEntry(dir, i, Entry(Page(phys), OrUser(FlagsOf(pde))));
    }

    /** A frame cleared for use as a table or a directory; 0 when there is none. */
    method ClearedFrame() returns (addr: Word)
      requires Valid()
      modifies ram, pmm`used, pmm.bitmap
      ensures Valid()
      ensures addr != 0 <==> HasFrame(old(Abs()).pmm)
      ensures if addr == 0 then Abs() == old(Abs()) else
        var (v, n) := TakeFrame(old(Abs()), Zeros()); Abs() == v && addr == n * PAGE_SIZE && Points(addr, n)
    {
      ghost var v := Abs();
      addr := pmm.AllocFrame();
      if addr == 0 { return; }
      NextIsFresh(v, Owners({}, map[]), pmm.Abs(), Page(addr));
      ClearTable(addr, Page(addr));
    }

    /** The copying loop of vmm_create_directory. */
    method CloneEntries(dir: Word, ghost k: nat, ghost d: nat)
      requires Valid() && Points(dir, d) && Points(kernelDir, k) && Copyable(Abs(), k, d)
      modifies ram, pmm`used, pmm.bitmap
      ensures Valid() && Abs() == CloneFrom(old(Abs()), k, d, 0)
    {
      ghost var v, now := Abs(), Abs();
      for i := 0 to ENTRIES
        invariant Valid() && now == Abs() && Copyable(now, k, d)
        invariant CloneFrom(now, k, d, i) == CloneFrom(v, k, d, 0)
      {
        CloneEntry(dir, i, k, d);
        now := NextRound(now, k, d, i);
      }
    }

    /** vmm_create_directory: the address of the new directory, 0 for NULL. */
    method CreateDirectory(ghost dirs: set<nat>) returns (dir: Word)
      requires Valid() && Grounded(Abs(), dirs)
      requires kernelDir != 0 ==> Page(kernelDir) in dirs && Points(kernelDir, Page(kernelDir))
      modifies ram, pmm`used, pmm.bitmap
      ensures Valid()
      ensures InRam(old(Abs()).mem, Page(old(kernelDir)))
      ensures (Abs(), dir) == AddressSpaces.CreateDirectory(old(Abs()))
    {
      ghost var v, k := Abs(), Page(kernelDir);
      dir := ClearedFrame();
      if dir != 0 && kernelDir != 0 {
        FreshDirectory(v, dirs, pmm.Abs(), Page(dir));
        StartsCopyable(Abs(), dirs + {Page(dir)}, k, Page(dir));
        CloneEntries(dir, k, Page(dir));
      }
    }

    /** The kernel's directory can be mapped into, and Abs() is what the mapping loop that started from v
        reaches in n rounds. */
    ghost predicate Reached(v: Vm, o: Owners, k: nat, n: nat)
      reads this, ram, pmm, pmm.bitmap
    {
      && Valid() && Points(kernelDir, k) && Separated(Abs(), o) && k in o.dirs
      && Roomy(v) && InRam(v.mem, k) && n <= IdentityMap.IDENTITY_PAGES && Abs() == IdentityMap.MapUpTo(v, k, n)
    }

    /** One round of the mapping loop. */
    method MapNext(ghost v: Vm, ghost o: Owners, ghost k: nat, ghost n: nat, addr: Word) returns (ghost o': Owners, ghost n': nat)
      requires Reached(v, o, k, n) && n < IdentityMap.IDENTITY_PAGES && addr == n * PAGE_SIZE
      modifies ram, pmm`used, pmm.bitmap
      ensures n' == n + 1 && Reached(v, o', k, n')
    {
      ghost var v1 := Abs();
      n' := IdentityMap.Unrolled(v, v1, k, n);
      MapIsolation(v1, o, k, addr, addr, IdentityMap.KERNEL_FLAGS);
      SeparatedGrounded(v1, o);
      GroundedInRam(v1, o.dirs, k, Page(addr) / ENTRIES);
      MapPage(kernelDir, addr, addr, IdentityMap.KERNEL_FLAGS);
      o' := MapOwners(v1, o, k, addr);
    }

    /** The mapping loop of vmm_init, up to the address limit. */
    method MapIdentity(limit: Word, ghost k: nat, ghost start: Owners, ghost pages: nat) returns (ghost o: Owners)
      requires limit == pages * PAGE_SIZE && pages <= IdentityMap.IDENTITY_PAGES && Valid() && Reached(Abs(), start, k, 0)
      modifies ram, pmm`used, pmm.bitmap
      ensures Reached(old(Abs()), o, k, pages)
    {
      ghost var v, n: nat := Abs(), 0;
      o := start;
      var addr: int := 0;
      while addr < limit
        invariant addr == n * PAGE_SIZE && n <= pages && Reached(v, o, k, n)
        decreases limit - addr
      {
        o, n := MapNext(v, o, k, n, addr);
        addr := addr + PAGE_SIZE;
      }
      assert n == pages;
    }

    /** vmm_init, up to the load of CR3. */
    method Init()
      requires Valid() && HasFrame(pmm.Abs())
      modifies this, ram, pmm`used, pmm.bitmap
      ensures Valid() && HasFrame(old(Abs()).pmm) && Abs() == IdentityMap.InitVm(old(Abs()))
    {
      ghost var v := Abs();
      ghost var o := StartMapping(v);
      kernelDir := ClearedFrame();
      o := MapIdentity(0x0800_0000, Page(kernelDir), o, IdentityMap.IDENTITY_PAGES);
    }
  }

  /** The table of entry i of the directory in page d, if there is one, is in RAM, and not at address 0,
      which means NULL. */
  predicate TableInRam(v: Vm, d: nat, i: nat) {
    && i < ENTRIES && InRam(v.mem, d)
    && var pde := Peek(v.mem, d, i);
    Present(pde) ==> InRam(v.mem, Page(pde)) && Page(pde) != 0
  }

  lemma GroundedInRam(v: Vm, dirs: set<nat>, d: nat, i: nat)
    requires Grounded(v, dirs) && d in dirs && i < ENTRIES
    ensures TableInRam(v, d, i)
  {
    assert EntryGrounded(v, dirs, d, i);
  }

  /** The first frame of vmm_init as the kernel's empty directory. */
  lemma StartMapping(v: Vm) returns (o: Owners)
    requires Roomy(v) && HasFrame(v.pmm)
    ensures var (v1, k) := TakeFrame(v, Zeros()); var v2 := v1.(kernelDir := IdentityMap.Addr(k));
      && o.dirs == {k} && Separated(v2, o) && Page(IdentityMap.Addr(k)) == k
      && IdentityMap.Addr(k) == Pmm.Alloc(v.pmm).1 && InRam(v.mem, k)
  {
    var none := Owners({}, map[]);
    var (v1, k) := TakeFrame(v, Zeros());
    NewDirectory(v, none);
    NextIsFresh(v, none, v1.pmm, k);
    Pages(IdentityMap.Addr(k), k, 0);
    o := none.(dirs := {k});
    assert none.dirs + {k} == {k};
    IdentityMap.Renamed(v1, v1.(kernelDir := IdentityMap.Addr(k)), o);
  }

  /** The tables of directory k can be copied for directory d: all that is pointed at is allocated, so
      a new frame is none of it. */
  predicate Copyable(v: Vm, k: nat, d: nat) {
    && Roomy(v) && k != d && InRam(v.mem, k) && InRam(v.mem, d) && Allocated(v.pmm, k) && Allocated(v.pmm, d)
    && forall i: nat {:trigger Peek(v.mem, k, i)} :: i < ENTRIES && Present(Peek(v.mem, k, i)) ==>
         Allocated(v.pmm, Page(Peek(v.mem, k, i))) && InRam(v.mem, Page(Peek(v.mem, k, i)))
  }

  lemma StartsCopyable(v: Vm, dirs: set<nat>, k: nat, d: nat)
    requires Grounded(v, dirs) && k in dirs && d in dirs && k != d
    ensures Copyable(v, k, d)
  {
    forall i: nat | i < ENTRIES && Present(Peek(v.mem, k, i))
      ensures Allocated(v.pmm, Page(Peek(v.mem, k, i))) && InRam(v.mem, Page(Peek(v.mem, k, i)))
    {
      assert EntryGrounded(v, dirs, k, i);
    }
  }

  lemma NextRound(v: Vm, k: nat, d: nat, i: nat) returns (v': Vm)
    requires Copyable(v, k, d) && i < ENTRIES
    ensures v' == AddressSpaces.CloneEntry(v, k, d, i) && Copyable(v', k, d)
    ensures CloneFrom(v', k, d, i + 1) == CloneFrom(v, k, d, i)
  {
    v' := AddressSpaces.CloneEntry(v, k, d, i);
    CopyableKept(v, k, d, i);
  }

  lemma CopyableKept(v: Vm, k: nat, d: nat, i: nat)
    requires Copyable(v, k, d) && i < ENTRIES
    ensures Copyable(AddressSpaces.CloneEntry(v, k, d, i), k, d)
  {
    var pde := Peek(v.mem, k, i);
    var v' := AddressSpaces.CloneEntry(v, k, d, i);
    if Present(pde) && HasFrame(v.pmm) {
      var t := UserCopy(v.mem, Page(pde));
      var (v1, n) := TakeFrame(v, t);
      NextIsFresh(v, Owners({}, map[]), v1.pmm, n);
      forall j: nat | j < ENTRIES ensures Peek(v'.mem, k, j) == Peek(v.mem, k, j) {
        PeekSetPage(v.mem, n, t, k, j);
        PeekPoke(v1.mem, d, i, CloneOf(pde, n), k, j);
      }
    } else {
      forall j: nat | j < ENTRIES ensures Peek(v'.mem, k, j) == Peek(v.mem, k, j) {
        PeekPoke(v.mem, d, i, if Present(pde) then OrUser(pde) else 0, k, j);
      }
    }
  }
}
