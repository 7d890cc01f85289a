/**
 What the frames of memory are for: directories, tables, and data. No operation of the virtual memory
 manager writes a word of a frame that holds data, or of the memory below the frames.
 */
module FrameUse {
  import opened Basics
  import opened Paging
  import opened AddressSpaces
  import Pmm

  // ---- the invariant ------------------------------------------------------------------------------

  /** Entry i of directory d, if present, points at an allocated page that is no directory. */
  predicate EntryGrounded(v: Vm, dirs: set<nat>, d: nat, i: nat) {
    && i < ENTRIES && InRam(v.mem, d)
    && var pde := Peek(v.mem, d, i);
    Present(pde) ==> Allocated(v.pmm, Page(pde)) && Page(pde) !in dirs
  }

  /** Weaker than Separated: it holds as well when directories share tables. */
  predicate Grounded(v: Vm, dirs: set<nat>) {
    && Roomy(v)
    && (forall d :: d in dirs ==> Allocated(v.pmm, d))
    && forall d, i: nat {:trigger EntryGrounded(v, dirs, d, i)} :: d in dirs && i < ENTRIES ==> EntryGrounded(v, dirs, d, i)
  }

  lemma SeparatedGrounded(v: Vm, o: Owners)
    requires Separated(v, o)
    ensures Grounded(v, o.dirs)
  {
    forall d | d in o.dirs ensures Allocated(v.pmm, d) {
      assert DirOk(v, o, d);
    }
    forall d, i: nat | d in o.dirs && i < ENTRIES ensures EntryGrounded(v, o.dirs, d, i) {
      assert DirOk(v, o, d) && EntryOk(v, o, d, i);
    }
  }

  // ---- data ---------------------------------------------------------------------------------------

  predicate PointsElsewhere(v: Vm, e: nat, i: nat, f: nat) {
    i < ENTRIES && InRam(v.mem, e) && (Present(Peek(v.mem, e, i)) ==> Page(Peek(v.mem, e, i)) != f)
  }

  /** Page f holds no directory and no table of any directory: what is written there is no translation. */
  ghost predicate IsData(v: Vm, dirs: set<nat>, f: nat) {
    f !in dirs && forall e, i: nat {:trigger PointsElsewhere(v, e, i, f)} :: e in dirs && i < ENTRIES ==> PointsElsewhere(v, e, i, f)
  }

  /** A frame that somebody keeps data in. */
  ghost predicate Held(v: Vm, dirs: set<nat>, f: nat) { Allocated(v.pmm, f) && IsData(v, dirs, f) }

  predicate SameFrame(mem: Memory, mem': Memory, f: nat) {
    && |mem'| == |mem| && InRam(mem, f)
    && forall w {:trigger mem'[w]} :: f * ENTRIES <= w < f * ENTRIES + ENTRIES ==> mem'[w] == mem[w]
  }

  predicate SameBelow(mem: Memory, mem': Memory) {
    && |mem'| == |mem| && FIRST_PAGE * ENTRIES <= |mem|
    && forall w {:trigger mem'[w]} :: 0 <= w < FIRST_PAGE * ENTRIES ==> mem'[w] == mem[w]
  }

  /** Every frame of data is one still, with the same words; so is the memory below the frames. */
  ghost predicate KeepsData(v: Vm, v': Vm, dirs: set<nat>, dirs': set<nat>) {
    && SameBelow(v.mem, v'.mem)
    && forall f: nat {:trigger Held(v, dirs, f)} :: Held(v, dirs, f) ==> Held(v', dirs', f) && SameFrame(v.mem, v'.mem, f)
  }

  lemma KeepsNothing(v: Vm, dirs: set<nat>)
    requires Roomy(v)
    ensures KeepsData(v, v, dirs, dirs)
  {
  }

  lemma KeepsTwice(v: Vm, v1: Vm, v2: Vm, dirs: set<nat>, dirs1: set<nat>, dirs2: set<nat>)
    requires KeepsData(v, v1, dirs, dirs1) && KeepsData(v1, v2, dirs1, dirs2)
    ensures KeepsData(v, v2, dirs, dirs2)
  {
  }

  /** A frame still free holds no data, no directory and no table. */
  lemma FreeIsData(v: Vm, dirs: set<nat>, f: nat)
    requires Grounded(v, dirs) && !Allocated(v.pmm, f)
    ensures IsData(v, dirs, f)
  {
    forall e, i: nat | e in dirs && i < ENTRIES ensures PointsElsewhere(v, e, i, f) {
      assert EntryGrounded(v, dirs, e, i);
    }
  }

  // ---- single writes ------------------------------------------------------------------------------

  lemma PokeSame(mem: Memory, n: nat, i: nat, w: Word, f: nat)
    requires InRam(mem, n) && InRam(mem, f) && i < ENTRIES && n != f
    ensures SameFrame(mem, Poke(mem, n, i, w), f)
    ensures |mem| >= FIRST_PAGE * ENTRIES && n >= FIRST_PAGE ==> SameBelow(mem, Poke(mem, n, i, w))
  {
    assert n < f ==> n * ENTRIES + ENTRIES <= f * ENTRIES;
    assert f < n ==> f * ENTRIES + ENTRIES <= n * ENTRIES;
  }

  /** A directory entry rewritten with a table that some directory has already, or with nothing. */
  lemma EntryRewritten(v: Vm, dirs: set<nat>, d: nat, i: nat, w: Word, e: nat, j: nat)
    requires Grounded(v, dirs) && d in dirs && e in dirs && i < ENTRIES && j < ENTRIES
    requires EntryGrounded(v, dirs, d, i) && EntryGrounded(v, dirs, e, j)
    requires Present(w) ==> Present(Peek(v.mem, e, j)) && Page(w) == Page(Peek(v.mem, e, j))
    ensures var v' := v.(mem := Poke(v.mem, d, i, w)); Grounded(v', dirs) && KeepsData(v, v', dirs, dirs)
  {
    var v' := v.(mem := Poke(v.mem, d, i, w));
    forall a, k: nat | a in dirs && k < ENTRIES ensures EntryGrounded(v', dirs, a, k) {
      assert EntryGrounded(v, dirs, a, k);
      PeekPoke(v.mem, d, i, w, a, k);
    }
    forall f: nat | Held(v, dirs, f) ensures Held(v', dirs, f) && SameFrame(v.mem, v'.mem, f) {
      PokeSame(v.mem, d, i, w, f);
      assert PointsElsewhere(v, e, j, f);
      forall a, k: nat | a in dirs && k < ENTRIES ensures PointsElsewhere(v', a, k, f) {
        assert PointsElsewhere(v, a, k, f);
        PeekPoke(v.mem, d, i, w, a, k);
      }
    }
  }

  /** An entry of a table written. */
  lemma TableWritten(v: Vm, dirs: set<nat>, d: nat, i: nat, j: nat, w: Word)
    requires Grounded(v, dirs) && d in dirs && i < ENTRIES && j < ENTRIES && EntryGrounded(v, dirs, d, i)
    requires Present(Peek(v.mem, d, i))
    ensures InRam(v.mem, Page(Peek(v.mem, d, i)))
    ensures var v' := Written(v, Page(Peek(v.mem, d, i)), j, w); Grounded(v', dirs) && KeepsData(v, v', dirs, dirs)
  {
    var t := Page(Peek(v.mem, d, i));
    var v' := Written(v, t, j, w);
    forall a, k: nat | a in dirs && k < ENTRIES ensures EntryGrounded(v', dirs, a, k) {
      assert EntryGrounded(v, dirs, a, k);
      PeekPoke(v.mem, t, j, w, a, k);
    }
    forall f: nat | Held(v, dirs, f) ensures Held(v', dirs, f) && SameFrame(v.mem, v'.mem, f) {
      assert PointsElsewhere(v, d, i, f);
      PokeSame(v.mem, t, j, w, f);
      forall a, k: nat | a in dirs && k < ENTRIES ensures PointsElsewhere(v', a, k, f) {
        assert PointsElsewhere(v, a, k, f);
        PeekPoke(v.mem, t, j, w, a, k);
      }
    }
  }

  lemma SetPageSame(mem: Memory, n: nat, t: seq<Word>, f: nat)
    requires InRam(mem, n) && InRam(mem, f) && |t| == ENTRIES && n != f
    ensures SameFrame(mem, SetPage(mem, n, t), f)
    ensures |mem| >= FIRST_PAGE * ENTRIES && n >= FIRST_PAGE ==> SameBelow(mem, SetPage(mem, n, t))
  {
    assert n < f ==> n * ENTRIES + ENTRIES <= f * ENTRIES;
    assert f < n ==> f * ENTRIES + ENTRIES <= n * ENTRIES;
  }

  /** A frame taken and filled holds data, until it is made a table. */
  lemma FrameTaken(v: Vm, dirs: set<nat>, p: Pmm.Pmm, n: nat, t: seq<Word>)
    requires Grounded(v, dirs) && Next(v, p, n) && |t| == ENTRIES
    ensures !Allocated(v.pmm, n) && InRam(v.mem, n)
    ensures var v' := Filled(v, p, n, t); Grounded(v', dirs) && KeepsData(v, v', dirs, dirs) && Held(v', dirs, n)
  {
    NextIsFresh(v, Owners({}, map[]), p, n);
    var v' := Filled(v, p, n, t);
    FreeIsData(v, dirs, n);
    forall a, k: nat | a in dirs && k < ENTRIES
      ensures EntryGrounded(v', dirs, a, k) && Peek(v'.mem, a, k) == Peek(v.mem, a, k)
    {
      assert EntryGrounded(v, dirs, a, k);
      PeekSetPage(v.mem, n, t, a, k);
    }
    forall f: nat | Held(v, dirs, f) || f == n ensures Held(v', dirs, f) && (f != n ==> SameFrame(v.mem, v'.mem, f)) {
      forall a, k: nat | a in dirs && k < ENTRIES ensures PointsElsewhere(v', a, k, f) {
        assert PointsElsewhere(v, a, k, f);
      }
      if f != n { SetPageSame(v.mem, n, t, f); }
    }
    if n != 0 { SetPageSame(v.mem, n, t, 0); }
  }

  /** The words of page n. */
  function Content(mem: Memory, n: nat): (t: seq<Word>)
    requires InRam(mem, n)
    ensures |t| == ENTRIES
  {
    seq(ENTRIES, i requires 0 <= i < ENTRIES => mem[n * ENTRIES + i])
  }

  /** The allocator's next frame, with whatever has been written into it. */
  lemma FilledWith(v: Vm, v': Vm, n: nat)
    requires InRam(v.mem, n) && v'.kernelDir == v.kernelDir && |v'.mem| == |v.mem|
    requires forall w :: 0 <= w < |v.mem| && !(n * ENTRIES <= w < n * ENTRIES + ENTRIES) ==> v'.mem[w] == v.mem[w]
    ensures v' == Filled(v, v'.pmm, n, Content(v'.mem, n))
  {
    assert v'.mem == SetPage(v.mem, n, Content(v'.mem, n));
  }

  /** A frame taken, filled, and made the table of a directory entry. */
  lemma FreshInstalled(v: Vm, dirs: set<nat>, d: nat, i: nat, p: Pmm.Pmm, n: nat, t: seq<Word>, w: Word)
    requires Grounded(v, dirs) && d in dirs && i < ENTRIES && EntryGrounded(v, dirs, d, i)
    requires Next(v, p, n) && |t| == ENTRIES && InRam(v.mem, n) && Page(w) == n
    ensures var v' := Installed(Filled(v, p, n, t), d, i, w);
      && InRam(Filled(v, p, n, t).mem, d) && Grounded(v', dirs) && KeepsData(v, v', dirs, dirs)
  {
    FrameTaken(v, dirs, p, n, t);
    NextIsFresh(v, Owners({}, map[]), p, n);
    var v1 := Filled(v, p, n, t);
    var v' := Installed(v1, d, i, w);
    forall a, k: nat | a in dirs && k < ENTRIES ensures EntryGrounded(v', dirs, a, k) {
      assert EntryGrounded(v1, dirs, a, k);
      PeekPoke(v1.mem, d, i, w, a, k);
    }
    forall f: nat | Held(v, dirs, f) ensures Held(v', dirs, f) && SameFrame(v.mem, v'.mem, f) {
      assert Held(v1, dirs, f) && SameFrame(v.mem, v1.mem, f);
      PokeSame(v1.mem, d, i, w, f);
      forall a, k: nat | a in dirs && k < ENTRIES ensures PointsElsewhere(v', a, k, f) {
        assert PointsElsewhere(v1, a, k, f);
        PeekPoke(v1.mem, d, i, w, a, k);
      }
    }
    PokeSame(v1.mem, d, i, w, 0);
  }

  /** A frame taken and cleared is a directory. */
  lemma FreshDirectory(v: Vm, dirs: set<nat>, p: Pmm.Pmm, n: nat)
    requires Grounded(v, dirs) && Next(v, p, n) && InRam(v.mem, n)
    ensures n !in dirs
    ensures var v', dirs' := Filled(v, p, n, Zeros()), dirs + {n}; Grounded(v', dirs') && KeepsData(v, v', dirs, dirs')
  {
    FrameTaken(v, dirs, p, n, Zeros());
    var v', dirs' := Filled(v, p, n, Zeros()), dirs + {n};
    forall a, k: nat | a in dirs' && k < ENTRIES ensures EntryGrounded(v', dirs', a, k) {
      if a == n {
        ZeroTable(v, n, k);
      } else {
        assert EntryGrounded(v', dirs, a, k);
        PointsBelow(v, dirs, a, k, n);
        PeekSetPage(v.mem, n, Zeros(), a, k);
      }
    }
    forall f: nat | Held(v, dirs, f) ensures Held(v', dirs', f) {
      assert Held(v', dirs, f);
      forall a, k: nat | a in dirs' && k < ENTRIES ensures PointsElsewhere(v', a, k, f) {
        if a == n {
          ZeroTable(v, n, k);
        } else {
          assert PointsElsewhere(v', a, k, f);
        }
      }
    }
  }

  /** No entry points at a free frame. */
  lemma PointsBelow(v: Vm, dirs: set<nat>, e: nat, k: nat, n: nat)
    requires Grounded(v, dirs) && e in dirs && k < ENTRIES && !Allocated(v.pmm, n)
    ensures e != n && EntryGrounded(v, dirs, e, k) && PointsElsewhere(v, e, k, n)
  {
    assert EntryGrounded(v, dirs, e, k);
  }

  // ---- the operations -----------------------------------------------------------------------------

  /** vmm_map_page keeps all data. */
  lemma MapKeeps(v: Vm, dirs: set<nat>, d: nat, virt: Word, phys: Word, flags: Word)
    requires Grounded(v, dirs) && d in dirs && IsFlags(flags)
    ensures InRam(v.mem, d)
    ensures var v' := MapPage(v, d, virt, phys, flags); Grounded(v', dirs) && KeepsData(v, v', dirs, dirs)
  {
    var i, j := Page(virt) / ENTRIES, Page(virt) % ENTRIES;
    assert EntryGrounded(v, dirs, d, i);
    var pde := Peek(v.mem, d, i);
    var f := OrWritable(OrPresent(flags));
    var w := Entry(Page(phys), OrPresent(flags));
    if Present(pde) {
      var v1 := if User(flags) then Widened(v, d, i, Propagated(pde, flags)) else v;
      KeepsNothing(v, dirs);
      EntryRewritten(v, dirs, d, i, Propagated(pde, flags), d, i);
      PeekPoke(v.mem, d, i, Propagated(pde, flags), d, i);
      assert EntryGrounded(v1, dirs, d, i);
      TableWritten(v1, dirs, d, i, j, w);
      KeepsTwice(v, v1, MapPage(v, d, virt, phys, flags), dirs, dirs, dirs);
    } else if HasFrame(v.pmm) {
      var (v1, n) := TakeFrame(v, Zeros());
      NextIsFresh(v, Owners({}, map[]), v1.pmm, n);
      FreshInstalled(v, dirs, d, i, v1.pmm, n, Zeros(), Entry(n, OrPresent(f)));
      var v2 := Installed(v1, d, i, Entry(n, OrPresent(f)));
      PeekPoke(v1.mem, d, i, Entry(n, OrPresent(f)), d, i);
      assert EntryGrounded(v2, dirs, d, i);
      TableWritten(v2, dirs, d, i, j, w);
      KeepsTwice(v, v2, MapPage(v, d, virt, phys, flags), dirs, dirs, dirs);
    } else {
      KeepsNothing(v, dirs);
    }
  }

  /** One mapping more. */
  lemma MapKeepsOn(v: Vm, v1: Vm, dirs: set<nat>, dirs1: set<nat>, d: nat, virt: Word, phys: Word, flags: Word)
    requires KeepsData(v, v1, dirs, dirs1) && Grounded(v1, dirs1) && d in dirs1 && IsFlags(flags)
    ensures InRam(v1.mem, d)
    ensures var v2 := MapPage(v1, d, virt, phys, flags); Grounded(v2, dirs1) && KeepsData(v, v2, dirs, dirs1)
  {
    MapKeeps(v1, dirs1, d, virt, phys, flags);
    KeepsTwice(v, v1, MapPage(v1, d, virt, phys, flags), dirs, dirs1, dirs1);
  }

  /** vmm_unmap_page keeps all data. */
  lemma UnmapKeeps(v: Vm, dirs: set<nat>, d: nat, virt: Word)
    requires Grounded(v, dirs) && d in dirs
    ensures InRam(v.mem, d)
    ensures var v' := UnmapPage(v, d, virt); Grounded(v', dirs) && KeepsData(v, v', dirs, dirs)
  {
    var i := Page(virt) / ENTRIES;
    assert EntryGrounded(v, dirs, d, i);
    KeepsNothing(v, dirs);
    if Present(Peek(v.mem, d, i)) {
      TableWritten(v, dirs, d, i, Page(virt) % ENTRIES, 0);
    }
  }

  /** A round of the copying loop keeps all data, whether it copies a table or shares it. */
  lemma CloneEntryKeeps(v: Vm, dirs: set<nat>, k: nat, d: nat, i: nat)
    requires Grounded(v, dirs) && k in dirs && d in dirs && i < ENTRIES
    ensures InRam(v.mem, k) && InRam(v.mem, d)
    ensures var v' := CloneEntry(v, k, d, i); Grounded(v', dirs) && KeepsData(v, v', dirs, dirs)
  {
    assert EntryGrounded(v, dirs, k, i) && EntryGrounded(v, dirs, d, i);
    var pde := Peek(v.mem, k, i);
    if Present(pde) && HasFrame(v.pmm) {
      var t := UserCopy(v.mem, Page(pde));
      var (v1, n) := TakeFrame(v, t);
      NextIsFresh(v, Owners({}, map[]), v1.pmm, n);
      FreshInstalled(v, dirs, d, i, v1.pmm, n, t, CloneOf(pde, n));
    } else {
      EntryRewritten(v, dirs, d, i, if Present(pde) then OrUser(pde) else 0, k, i);
    }
  }

  lemma {:induction false} CloneKeeps(v: Vm, dirs: set<nat>, k: nat, d: nat, i: nat)
    requires Grounded(v, dirs) && k in dirs && d in dirs && i <= ENTRIES
    ensures InRam(v.mem, k) && InRam(v.mem, d)
    ensures var v' := CloneFrom(v, k, d, i); Grounded(v', dirs) && KeepsData(v, v', dirs, dirs)
    decreases ENTRIES - i
  {
    assert EntryGrounded(v, dirs, k, 0) && EntryGrounded(v, dirs, d, 0);
    if i == ENTRIES {
      KeepsNothing(v, dirs);
    } else {
      CloneEntryKeeps(v, dirs, k, d, i);
      var v1 := CloneEntry(v, k, d, i);
      CloneKeeps(v1, dirs, k, d, i + 1);
      KeepsTwice(v, v1, CloneFrom(v1, k, d, i + 1), dirs, dirs, dirs);
    }
  }

  /** The directories there are after vmm_create_directory has answered a. */
  function WithDirectory(dirs: set<nat>, a: Word): set<nat> { if a == 0 then dirs else dirs + {Page(a)} }

  /** vmm_create_directory keeps all data, with frames enough or without. */
  lemma CreateKeeps(v: Vm, dirs: set<nat>)
    requires Grounded(v, dirs) && (v.kernelDir != 0 ==> Page(v.kernelDir) in dirs)
    ensures InRam(v.mem, Page(v.kernelDir))
    ensures var (v', a) := CreateDirectory(v); var dirs' := WithDirectory(dirs, a);
      && Grounded(v', dirs') && KeepsData(v, v', dirs, dirs')
      && (a != 0 ==> a == Page(a) * PAGE_SIZE && Page(a) !in dirs && InRam(v'.mem, Page(a)))
  {
    if HasFrame(v.pmm) {
      var d := DirectoryKeeps(v, dirs);
    } else {
      KeepsNothing(v, dirs);
    }
  }

  lemma DirectoryKeeps(v: Vm, dirs: set<nat>) returns (d: nat)
    requires Grounded(v, dirs) && (v.kernelDir != 0 ==> Page(v.kernelDir) in dirs) && HasFrame(v.pmm)
    ensures InRam(v.mem, Page(v.kernelDir)) && d !in dirs && InRam(v.mem, d) && d * PAGE_SIZE < TWO_TO_THE_32
    ensures CreateDirectory(v).1 == d * PAGE_SIZE && Page(d * PAGE_SIZE) == d
    ensures var v' := CreateDirectory(v).0; Grounded(v', dirs + {d}) && KeepsData(v, v', dirs, dirs + {d})
  {
    var (v1, n) := TakeFrame(v, Zeros());
    d := n;
    NextIsFresh(v, Owners({}, map[]), v1.pmm, d);
    Pages(d * PAGE_SIZE, d, 0);
    FreshDirectory(v, dirs, v1.pmm, d);
    if v.kernelDir != 0 {
      CloneKeeps(v1, dirs + {d}, Page(v.kernelDir), d, 0);
      KeepsTwice(v, v1, CloneFrom(v1, Page(v.kernelDir), d, 0), dirs, dirs + {d}, dirs + {d});
    }
  }

  // ---- a shortage of frames ---------------------------------------------------------------------------

  /** After the next vmm_create_directory, what is mapped at virt in the new directory appears at virt in the
      kernel's. */
  predicate Leaks(v: Vm, k: nat, virt: Word, phys: Word, flags: Word) {
    && Roomy(v) && k == Page(v.kernelDir) && InRam(v.mem, k) && IsFlags(flags)
    && var (v2, a) := CreateDirectory(v);
    && a != 0 && InRam(v2.mem, k) && InRam(v2.mem, Page(a)) && !NothingShared(v2.mem, k, Page(a))
    && var v3 := MapPage(v2, Page(a), virt, phys, flags);
    Walk(v3.mem, k, Page(virt)).Some? && Walk(v3.mem, k, Page(virt)).value.page == Page(phys)
  }

  /** What is mapped through a shared table of entry j. */
  lemma SharedEntryLeaks(v: Vm, dirs: set<nat>, k: nat, d: nat, j: nat, phys: Word, flags: Word) returns (virt: Word)
    requires Grounded(v, dirs) && k in dirs && d in dirs && k != d && j < ENTRIES && IsFlags(flags) && EntryGrounded(v, dirs, k, j)
    requires InRam(v.mem, d) && Present(Peek(v.mem, k, j)) && Peek(v.mem, d, j) == OrUser(Peek(v.mem, k, j))
    ensures !NothingShared(v.mem, k, d)
    ensures var v' := MapPage(v, d, virt, phys, flags);
      Walk(v'.mem, k, Page(virt)).Some? && Walk(v'.mem, k, Page(virt)).value.page == Page(phys)
  {
    Pages(j * ENTRIES * PAGE_SIZE, j * ENTRIES, 0);
    virt := j * ENTRIES * PAGE_SIZE;
    SharedTableLeaks(v, k, d, virt, phys, flags);
    assert Page(Peek(v.mem, k, j)) == Page(Peek(v.mem, d, j));
  }

  /** With a frame for a directory but not for all its tables, there is an address at which whatever a
      process maps appears in the kernel. */
  lemma ShortageLeaks(v: Vm, o: Owners, k: nat, phys: Word, flags: Word) returns (virt: Word)
    requires Separated(v, o) && KernelDir(v, o, k) && InRam(v.mem, k) && HasFrame(v.pmm) && IsFlags(flags)
    requires FreeFrames(v.pmm) < 1 + PresentFrom(v.mem, k, 0)
    ensures Leaks(v, k, virt, phys, flags)
  {
    var j := SharesSome(v, o, k);
    SeparatedGrounded(v, o);
    CreateKeeps(v, o.dirs);
    var (v2, a) := CreateDirectory(v);
    assert EntryGrounded(v2, WithDirectory(o.dirs, a), k, j);
    virt := SharedEntryLeaks(v2, WithDirectory(o.dirs, a), k, Page(a), j, phys, flags);
  }
}
