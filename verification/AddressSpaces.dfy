/**
 Mapping, unmapping, cloning and initialising address spaces, on values.  The theorems say that an
 operation on one translation leaves every other translation of every directory alone.
 */
module AddressSpaces {
  import opened Basics
  import opened Paging
  import Pmm

  /** The allocator is consistent and all it manages is in RAM. */
  predicate Roomy(v: Vm) {
    && Pmm.WellFormed(v.pmm) && v.pmm.total <= RAM_PAGES - FIRST_PAGE
    && |v.mem| >= RAM_PAGES * ENTRIES
  }

  predicate HasFrame(p: Pmm.Pmm)
    requires |p.bits| == Pmm.MAX_FRAMES
  {
    Pmm.Alloc(p).1 != 0
  }

  /** A frame taken from the allocator and filled with t. */
  function TakeFrame(v: Vm, t: seq<Word>): (r: (Vm, nat))
    requires Roomy(v) && HasFrame(v.pmm) && |t| == ENTRIES
    ensures Roomy(r.0) && |r.0.mem| == |v.mem| && r.1 < RAM_PAGES
    ensures Next(v, r.0.pmm, r.1) && r.0 == Filled(v, r.0.pmm, r.1, t)
  {
    var (p, a) := Pmm.Alloc(v.pmm);
    NextIsFresh(v, Owners({}, map[]), p, Page(a));
    (Filled(v, p, Page(a), t), Page(a))
  }

  // ---- map and unmap ----------------------------------------------------------------------

  /** get_or_create_table: the table of a directory entry, with the entry installed if it was absent. */
  function GetOrCreateTable(v: Vm, d: nat, i: nat, flags: Word): (r: (Vm, Option<nat>))
    requires Roomy(v) && InRam(v.mem, d) && i < ENTRIES && IsFlags(flags)
    ensures Roomy(r.0) && |r.0.mem| == |v.mem| && r.0.kernelDir == v.kernelDir
  {
    var pde := Peek(v.mem, d, i);
    if Present(pde) then (v, Some(Page(pde)))
    else if !HasFrame(v.pmm) then (v, None)
    else
      var (v1, n) := TakeFrame(v, Zeros());
      (Installed(v1, d, i, Entry(n, OrPresent(flags))), Some(n))
  }

  /** The rights vmm_map_page first adds to a present directory entry for a user mapping. */
  function Propagated(pde: Word, flags: Word): Word {
    if Writable(flags) then OrWritable(OrUser(pde)) else OrUser(pde)
  }

  /** vmm_map_page */
  function MapPage(v: Vm, d: nat, virt: Word, phys: Word, flags: Word): (v': Vm)
    requires Roomy(v) && InRam(v.mem, d) && IsFlags(flags)
    ensures Roomy(v') && |v'.mem| == |v.mem| && v'.kernelDir == v.kernelDir
  {
    var i, j := Page(virt) / ENTRIES, Page(virt) % ENTRIES;
    var pde := Peek(v.mem, d, i);
    var v1 := if Present(pde) && User(flags) then Widened(v, d, i, Propagated(pde, flags)) else v;
    var (v2, t) := GetOrCreateTable(v1, d, i, OrWritable(OrPresent(flags)));
    match t
    case None => v2
    case Some(t) => if InRam(v2.mem, t) then Written(v2, t, j, Entry(Page(phys), OrPresent(flags))) else v2
  }

  /** vmm_unmap_page */
  function UnmapPage(v: Vm, d: nat, virt: Word): (v': Vm)
    requires Roomy(v) && InRam(v.mem, d)
    ensures Roomy(v') && |v'.mem| == |v.mem|
  {
    var i, j := Page(virt) / ENTRIES, Page(virt) % ENTRIES;
    var pde := Peek(v.mem, d, i);
    if Present(pde) && InRam(v.mem, Page(pde)) then Written(v, Page(pde), j, 0) else v
  }

  /** A mapping takes effect exactly when its table exists or can be made. */
  predicate CanMap(v: Vm, d: nat, virt: Word)
    requires Roomy(v) && InRam(v.mem, d)
  {
    Present(Peek(v.mem, d, Page(virt) / ENTRIES)) || HasFrame(v.pmm)
  }

  /** Who owns what after a mapping. */
  function MapOwners(v: Vm, o: Owners, d: nat, virt: Word): (o': Owners)
    requires Roomy(v) && InRam(v.mem, d)
    ensures o'.dirs == o.dirs
  {
    var i := Page(virt) / ENTRIES;
    if Present(Peek(v.mem, d, i)) || !HasFrame(v.pmm) then o
    else o.(tables := o.tables[TakeFrame(v, Zeros()).1 := (d, i)])
  }

  /** All translations but that of page q of directory d are the same. */
  predicate OthersSame(v: Vm, v': Vm, o: Owners, d: nat, q: nat) {
    forall e, x {:trigger SameWalk(v, v', e, x)} ::
      e in o.dirs && x < 0x10_0000 && !(e == d && x == q) ==> SameWalk(v, v', e, x)
  }

  lemma ZeroTable(v: Vm, n: nat, j: nat)
    requires InRam(v.mem, n) && j < ENTRIES
    ensures Peek(SetPage(v.mem, n, Zeros()), n, j) == 0
  {
    PeekSetPage(v.mem, n, Zeros(), n, j);
  }

  /** A fresh empty table becomes the table of an absent entry; no translation changes. */
  lemma CreatedTable(v: Vm, o: Owners, d: nat, i: nat, flags: Word)
    requires Separated(v, o) && d in o.dirs && DirOk(v, o, d) && i < ENTRIES && IsFlags(flags) && Writable(flags)
    requires !Present(Peek(v.mem, d, i)) && HasFrame(v.pmm)
    ensures var (v', t) := GetOrCreateTable(v, d, i, flags);
      && t.Some? && Separated(v', o.(tables := o.tables[t.value := (d, i)]))
      && InRam(v'.mem, d) && Present(Peek(v'.mem, d, i)) && Page(Peek(v'.mem, d, i)) == t.value
      && Peek(v'.mem, d, i) % 8 == OrPresent(flags) % 8
      && forall e, x {:trigger SameWalk(v, v', e, x)} :: e in o.dirs && x < 0x10_0000 ==> SameWalk(v, v', e, x)
    ensures GetOrCreateTable(v, d, i, flags).1 == Some(TakeFrame(v, Zeros()).1)
  {
    var (v1, n) := TakeFrame(v, Zeros());
    var w := Entry(n, OrPresent(flags));
    var v' := Installed(v1, d, i, w);
    NextIsFresh(v, o, v1.pmm, n);
    FilledSeparated(v, o, v1.pmm, n, Zeros());
    FreshInstallable(v, o, v1, d, i, n, Zeros(), w);
    InstalledSeparated(v1, o, d, i, w);
    PeekPoke(v1.mem, d, i, w, d, i);
    forall e, x: nat | e in o.dirs && x < 0x10_0000 ensures SameWalk(v, v', e, x) {
      FilledWalk(v, o, v1.pmm, n, Zeros(), e, x);
      InstalledWalk(v1, o, d, i, w, e, x);
      ZeroTable(v, n, x % ENTRIES);
    }
  }

  /** A frame just taken and filled can be installed in any absent entry, if the rights fit. */
  lemma FreshInstallable(v: Vm, o: Owners, v1: Vm, d: nat, i: nat, n: nat, t: seq<Word>, w: Word)
    requires Separated(v, o) && d in o.dirs && DirOk(v, o, d) && i < ENTRIES && |t| == ENTRIES
    requires Next(v, v1.pmm, n) && InRam(v.mem, n) && v1 == Filled(v, v1.pmm, n, t)
    requires !Present(Peek(v.mem, d, i)) && Present(w) && Writable(w) && Page(w) == n
    requires User(w) || forall j :: 0 <= j < ENTRIES ==> !User(t[j])
    ensures Separated(v1, o) && Installable(v1, o, d, i, w)
  {
    NextIsFresh(v, o, v1.pmm, n);
    FilledSeparated(v, o, v1.pmm, n, t);
    assert DirOk(v1, o, d);
    FilledEntry(v, o, v1.pmm, n, t, d, i);
    forall e, k: nat | e in o.dirs && DirOk(v1, o, e) && k < ENTRIES && Present(Peek(v1.mem, e, k))
      ensures Page(Peek(v1.mem, e, k)) != n
    {
      FilledEntry(v, o, v1.pmm, n, t, e, k);
    }
    forall j: nat | j < ENTRIES && User(Peek(v1.mem, n, j)) ensures User(w) {
      PeekSetPage(v.mem, n, t, n, j);
    }
  }

  /** The last step of a mapping or an unmapping: one entry of the present table. */
  lemma FinalWrite(v: Vm, o: Owners, d: nat, virt: Word, w: Word)
    requires Separated(v, o) && d in o.dirs && DirOk(v, o, d)
    requires var pde := Peek(v.mem, d, Page(virt) / ENTRIES); Present(pde) && (User(w) ==> User(pde))
    ensures var q := Page(virt); var pde := Peek(v.mem, d, q / ENTRIES); var t := Page(pde);
      && InRam(v.mem, t) && Writable(pde)
      && var v' := Written(v, t, q % ENTRIES, w);
      && Separated(v', o) && InRam(v'.mem, d) && Walk(v'.mem, d, q) == Combine(pde, w)
      && OthersSame(v, v', o, d, q)
  {
    var q := Page(virt);
    var i, j := q / ENTRIES, q % ENTRIES;
    assert EntryOk(v, o, d, i);
    var v' := Written(v, Page(Peek(v.mem, d, i)), j, w);
    WrittenSeparated(v, o, d, i, j, w);
    WrittenWalk(v, o, d, i, j, w, d, q);
    forall e, x | e in o.dirs && x < 0x10_0000 && !(e == d && x == q) ensures SameWalk(v, v', e, x) {
      WrittenWalk(v, o, d, i, j, w, e, x);
    }
  }

  /** Up to its last write, a mapping changes no translation; it leaves the entry's table present,
      writable, and user if the mapping is. */
  lemma MapPrepares(v: Vm, o: Owners, d: nat, virt: Word, flags: Word)
    requires Separated(v, o) && d in o.dirs && DirOk(v, o, d) && IsFlags(flags) && CanMap(v, d, virt)
    ensures var i := Page(virt) / ENTRIES; var pde := Peek(v.mem, d, i);
      var v1 := if Present(pde) && User(flags) then Widened(v, d, i, Propagated(pde, flags)) else v;
      var (v2, t) := GetOrCreateTable(v1, d, i, OrWritable(OrPresent(flags)));
      && Separated(v2, MapOwners(v, o, d, virt)) && InRam(v2.mem, d)
      && Present(Peek(v2.mem, d, i)) && t == Some(Page(Peek(v2.mem, d, i)))
      && (User(flags) ==> User(Peek(v2.mem, d, i)))
      && forall e, x {:trigger SameWalk(v, v2, e, x)} :: e in o.dirs && x < 0x10_0000 ==> SameWalk(v, v2, e, x)
  {
    var i := Page(virt) / ENTRIES;
    var pde := Peek(v.mem, d, i);
    assert EntryOk(v, o, d, i);
    if Present(pde) {
      if User(flags) {
        var w := Propagated(pde, flags);
        WidenedSeparated(v, o, d, i, w);
        PeekPoke(v.mem, d, i, w, d, i);
        forall e, x | e in o.dirs && x < 0x10_0000 ensures SameWalk(v, Widened(v, d, i, w), e, x) {
          WidenedWalk(v, o, d, i, w, e, x);
        }
      } else {
        forall e, x | e in o.dirs && x < 0x10_0000 ensures SameWalk(v, v, e, x) {
          assert DirOk(v, o, e);
        }
      }
    } else {
      CreatedTable(v, o, d, i, OrWritable(OrPresent(flags)));
    }
  }

  /** Map isolation: a mapping that can take effect gives its page the frame and the rights asked for
      and changes no other translation of any directory; one that cannot changes nothing at all. */
  lemma MapIsolation(v: Vm, o: Owners, d: nat, virt: Word, phys: Word, flags: Word)
    requires Separated(v, o) && d in o.dirs && IsFlags(flags)
    ensures Roomy(v) && InRam(v.mem, d)
    ensures var v' := MapPage(v, d, virt, phys, flags);
      && Separated(v', MapOwners(v, o, d, virt)) && InRam(v'.mem, d)
      && if CanMap(v, d, virt) then
           && Walk(v'.mem, d, Page(virt)) == Some(Mapping(Page(phys), Writable(flags), User(flags)))
           && OthersSame(v, v', o, d, Page(virt))
         else v' == v
  {
    assert DirOk(v, o, d);
    var q := Page(virt);
    var i := q / ENTRIES;
    if CanMap(v, d, virt) {
      MapPrepares(v, o, d, virt, flags);
      var pde := Peek(v.mem, d, i);
      var v1 := if Present(pde) && User(flags) then Widened(v, d, i, Propagated(pde, flags)) else v;
      var v2 := GetOrCreateTable(v1, d, i, OrWritable(OrPresent(flags))).0;
      var o' := MapOwners(v, o, d, virt);
      assert DirOk(v2, o', d);
      var w := Entry(Page(phys), OrPresent(flags));
      FinalWrite(v2, o', d, virt, w);
      var v' := MapPage(v, d, virt, phys, flags);
      forall e, x | e in o.dirs && x < 0x10_0000 && !(e == d && x == q) ensures SameWalk(v, v', e, x) {
        assert SameWalk(v, v2, e, x) && SameWalk(v2, v', e, x);
      }
    }
  }

  /** Unmapping removes its own translation and touches no other. */
  lemma UnmapIsolation(v: Vm, o: Owners, d: nat, virt: Word)
    requires Separated(v, o) && d in o.dirs
    ensures Roomy(v) && InRam(v.mem, d)
    ensures var v' := UnmapPage(v, d, virt);
      && Separated(v', o) && InRam(v'.mem, d) && Walk(v'.mem, d, Page(virt)) == None
      && OthersSame(v, v', o, d, Page(virt))
  {
    assert DirOk(v, o, d) && EntryOk(v, o, d, Page(virt) / ENTRIES);
    if Present(Peek(v.mem, d, Page(virt) / ENTRIES)) {
      FinalWrite(v, o, d, virt, 0);
    } else {
      forall e, x | e in o.dirs && x < 0x10_0000 ensures SameWalk(v, v, e, x) {
        assert DirOk(v, o, e);
      }
    }
  }

  lemma MapThenUnmap(v: Vm, o: Owners, d: nat, virt: Word, phys: Word, flags: Word)
    requires Separated(v, o) && d in o.dirs && IsFlags(flags)
    requires DirOk(v, o, d) && Walk(v.mem, d, Page(virt)) == None
    ensures var v' := UnmapPage(MapPage(v, d, virt, phys, flags), d, virt);
      forall e, x :: e in o.dirs && x < 0x10_0000 ==> SameWalk(v, v', e, x)
  {
    var m := MapPage(v, d, virt, phys, flags);
    MapIsolation(v, o, d, virt, phys, flags);
    var o' := MapOwners(v, o, d, virt);
    UnmapIsolation(m, o', d, virt);
    var v' := UnmapPage(m, d, virt);
    forall e, x | e in o.dirs && x < 0x10_0000 ensures SameWalk(v, v', e, x) {
      assert DirOk(v, o, e);
      if !(e == d && x == Page(virt)) {
        assert SameWalk(m, v', e, x);
        assert CanMap(v, d, virt) ==> SameWalk(v, m, e, x);
      }
    }
  }

  // ---- a directory for a new process --------------------------------------------------------

  function FreeFrames(p: Pmm.Pmm): int
    requires p.total <= |p.bits|
  {
    p.total - Pmm.Taken(p.bits, p.total)
  }

  /** One round of the copying loop of vmm_create_directory: entry i of the kernel's directory k. */
  function CloneEntry(v: Vm, k: nat, d: nat, i: nat): (v': Vm)
    requires Roomy(v) && InRam(v.mem, k) && InRam(v.mem, d) && i < ENTRIES
    ensures Roomy(v') && |v'.mem| == |v.mem| && v'.kernelDir == v.kernelDir
  {
    var pde := Peek(v.mem, k, i);
    if !Present(pde) then Installed(v, d, i, 0)
    else if !HasFrame(v.pmm) || !InRam(v.mem, Page(pde)) then Installed(v, d, i, OrUser(pde))
    else
      var (v1, n) := TakeFrame(v, UserCopy(v.mem, Page(pde)));
      Installed(v1, d, i, Entry(n, OrUser(FlagsOf(pde))))
  }

  function CloneFrom(v: Vm, k: nat, d: nat, i: nat): (v': Vm)
    requires Roomy(v) && InRam(v.mem, k) && InRam(v.mem, d) && i <= ENTRIES
    ensures Roomy(v') && |v'.mem| == |v.mem| && v'.kernelDir == v.kernelDir
    decreases ENTRIES - i
  {
    if i == ENTRIES then v else CloneFrom(CloneEntry(v, k, d, i), k, d, i + 1)
  }

  /** vmm_create_directory: the state and the physical address of the directory, 0 for none. */
  function CreateDirectory(v: Vm): (r: (Vm, Word))
    requires Roomy(v) && InRam(v.mem, Page(v.kernelDir))
    ensures Roomy(r.0) && |r.0.mem| == |v.mem| && r.0.kernelDir == v.kernelDir
    ensures r.1 != 0 <==> HasFrame(v.pmm)
  {
    if !HasFrame(v.pmm) then (v, 0)
    else
      var (v1, d) := TakeFrame(v, Zeros());
      (if v.kernelDir == 0 then v1 else CloneFrom(v1, Page(v.kernelDir), d, 0), d * PAGE_SIZE)
  }

  /** The owners once the copy of entry i, if there is one, has been installed. */
  function CloneOwners(v: Vm, o: Owners, k: nat, d: nat, i: nat): (o': Owners)
    requires Roomy(v) && InRam(v.mem, k) && i < ENTRIES
    ensures o'.dirs == o.dirs
  {
    var pde := Peek(v.mem, k, i);
    if Present(pde) && HasFrame(v.pmm) && InRam(v.mem, Page(pde)) then
      o.(tables := o.tables[TakeFrame(v, UserCopy(v.mem, Page(pde))).1 := (d, i)])
    else o
  }

  /** Who owns what after the rounds of the copying loop from the i-th on. */
  function CloneFromOwners(v: Vm, o: Owners, k: nat, d: nat, i: nat): (o': Owners)
    requires Roomy(v) && InRam(v.mem, k) && InRam(v.mem, d) && i <= ENTRIES
    ensures o'.dirs == o.dirs
    decreases ENTRIES - i
  {
    if i == ENTRIES then o else CloneFromOwners(CloneEntry(v, k, d, i), CloneOwners(v, o, k, d, i), k, d, i + 1)
  }

  /** Who owns what after vmm_create_directory. */
  function CreateOwners(v: Vm, o: Owners): (o': Owners)
    requires Roomy(v) && InRam(v.mem, Page(v.kernelDir)) && HasFrame(v.pmm)
  {
    var (v1, d) := TakeFrame(v, Zeros());
    CloneFromOwners(v1, o.(dirs := o.dirs + {d}), Page(v.kernelDir), d, 0)
  }

  /** Present entries of directory k from the i-th on. */
  function PresentFrom(mem: Memory, k: nat, i: nat): nat
    requires InRam(mem, k) && i <= ENTRIES
    decreases ENTRIES - i
  {
    if i == ENTRIES then 0
    else (if Present(Peek(mem, k, i)) then 1 else 0) + PresentFrom(mem, k, i + 1)
  }

  /** A walk with the user right added. */
  function WithUser(m: Option<Mapping>): Option<Mapping> {
    match m
    case None => None
    case Some(m) => Some(m.(user := true))
  }

  /** Directory d translates page x as k does, with the user right added. */
  predicate ClonesAt(mem: Memory, k: nat, d: nat, x: nat) {
    x < 0x10_0000 && InRam(mem, k) && InRam(mem, d) && Walk(mem, d, x) == WithUser(Walk(mem, k, x))
  }

  /** That holds of the pages of entries below i, and the other entries are still empty. */
  predicate ClonedUpTo(v: Vm, k: nat, d: nat, i: nat) {
    && InRam(v.mem, k) && InRam(v.mem, d)
    && (forall x: nat {:trigger ClonesAt(v.mem, k, d, x)} :: x < i * ENTRIES && x < 0x10_0000 ==> ClonesAt(v.mem, k, d, x))
    && (forall j: nat {:trigger Peek(v.mem, d, j)} :: i <= j < ENTRIES ==> Peek(v.mem, d, j) == 0)
  }

  lemma TakeFrameCounts(v: Vm, t: seq<Word>)
    requires Roomy(v) && |t| == ENTRIES
    ensures HasFrame(v.pmm) <==> FreeFrames(v.pmm) > 0
    ensures HasFrame(v.pmm) ==> FreeFrames(TakeFrame(v, t).0.pmm) == FreeFrames(v.pmm) - 1
  {
    Pmm.AllocGivesLowest(v.pmm);
    Pmm.SomeFree(v.pmm.bits, v.pmm.total);
    if HasFrame(v.pmm) {
      Pmm.TakenAfter(v.pmm.bits, Pmm.FrameOf(Pmm.Alloc(v.pmm).1), true, v.pmm.total);
    }
  }

  /** No entry of directory k differs. */
  predicate SameEntries(mem: Memory, mem': Memory, k: nat) {
    && InRam(mem, k) && InRam(mem', k)
    && forall j: nat {:trigger Peek(mem', k, j)} :: j < ENTRIES ==> Peek(mem', k, j) == Peek(mem, k, j)
  }

  /** The entry a copied table is installed with. */
  function CloneOf(pde: Word, n: nat): Word
    requires n < 0x10_0000
  {
    Entry(n, OrUser(FlagsOf(pde)))
  }

  /** What a copied table translates: what the original does, with the user right. */
  lemma CloneTranslates(pde: Word, pte: Word, n: nat)
    requires n < 0x10_0000 && Present(pde)
    ensures var w := CloneOf(pde, n);
      && Present(w) && User(w) && (Writable(w) <==> Writable(pde)) && Page(w) == n
      && Combine(w, OrUser(pte)) == WithUser(Combine(pde, pte))
  {
  }

  /** A copy of entry i: the frame, its contents, the entry that will point at it. */
  lemma CloneInstallable(v: Vm, o: Owners, k: nat, d: nat, i: nat)
    requires Separated(v, o) && k in o.dirs && d in o.dirs && i < ENTRIES && DirOk(v, o, k) && DirOk(v, o, d)
    requires Present(Peek(v.mem, k, i)) && !Present(Peek(v.mem, d, i)) && HasFrame(v.pmm)
    ensures InRam(v.mem, Page(Peek(v.mem, k, i)))
    ensures var pde := Peek(v.mem, k, i); var (v1, n) := TakeFrame(v, UserCopy(v.mem, Page(pde)));
      && Separated(v1, o) && Installable(v1, o, d, i, CloneOf(pde, n))
      && Separated(CloneEntry(v, k, d, i), CloneOwners(v, o, k, d, i))
  {
    var pde := Peek(v.mem, k, i);
    assert EntryOk(v, o, k, i);
    var t := UserCopy(v.mem, Page(pde));
    var (v1, n) := TakeFrame(v, t);
    NextIsFresh(v, o, v1.pmm, n);
    CloneTranslates(pde, 0, n);
    FreshInstallable(v, o, v1, d, i, n, t, CloneOf(pde, n));
    InstalledSeparated(v1, o, d, i, CloneOf(pde, n));
  }

  /** What one copied entry does to every translation. */
  lemma CloneEntryWalk(v: Vm, o: Owners, k: nat, d: nat, i: nat, e: nat, x: nat)
    requires Separated(v, o) && k in o.dirs && d in o.dirs && i < ENTRIES && DirOk(v, o, k) && DirOk(v, o, d)
    requires Present(Peek(v.mem, k, i)) && !Present(Peek(v.mem, d, i)) && HasFrame(v.pmm)
    requires e in o.dirs && x < 0x10_0000
    ensures var v' := CloneEntry(v, k, d, i);
      if e == d && x / ENTRIES == i then
        && InRam(v'.mem, d)
        && Walk(v'.mem, d, x) == WithUser(Walk(v.mem, k, x))
      else SameWalk(v, v', e, x)
  {
    var pde := Peek(v.mem, k, i);
    CloneInstallable(v, o, k, d, i);
    var t := UserCopy(v.mem, Page(pde));
    var (v1, n) := TakeFrame(v, t);
    NextIsFresh(v, o, v1.pmm, n);
    FilledWalk(v, o, v1.pmm, n, t, e, x);
    InstalledWalk(v1, o, d, i, CloneOf(pde, n), e, x);
    if e == d && x / ENTRIES == i {
      PeekSetPage(v.mem, n, t, n, x % ENTRIES);
      CloneTranslates(pde, Peek(v.mem, Page(pde), x % ENTRIES), n);
    }
  }

  /** One round writes no entry of any directory but entry i of d. */
  lemma CloneEntryEntries(v: Vm, o: Owners, k: nat, d: nat, i: nat, e: nat, j: nat)
    requires Separated(v, o) && k in o.dirs && d in o.dirs && e in o.dirs && i < ENTRIES && j < ENTRIES
    requires DirOk(v, o, k) && DirOk(v, o, d) && DirOk(v, o, e)
    ensures InRam(CloneEntry(v, k, d, i).mem, e)
    ensures !(e == d && j == i) ==> Peek(CloneEntry(v, k, d, i).mem, e, j) == Peek(v.mem, e, j)
  {
    var pde := Peek(v.mem, k, i);
    if Present(pde) && HasFrame(v.pmm) && InRam(v.mem, Page(pde)) {
      var t := UserCopy(v.mem, Page(pde));
      var (v1, n) := TakeFrame(v, t);
      FilledEntry(v, o, v1.pmm, n, t, e, j);
      PeekPoke(v1.mem, d, i, CloneOf(pde, n), e, j);
    } else {
      PeekPoke(v.mem, d, i, if Present(pde) then OrUser(pde) else 0, e, j);
    }
  }

  predicate OtherDirsSame(v: Vm, v': Vm, o: Owners, d: nat) {
    forall e, x: nat {:trigger SameWalk(v, v', e, x)} ::
      e in o.dirs && e != d && x < 0x10_0000 ==> SameWalk(v, v', e, x)
  }

  lemma OtherDirsTwice(v: Vm, v': Vm, v'': Vm, o: Owners, d: nat)
    requires OtherDirsSame(v, v', o, d) && OtherDirsSame(v', v'', o, d)
    ensures OtherDirsSame(v, v'', o, d)
  {
    forall e, x: nat | e in o.dirs && e != d && x < 0x10_0000 ensures SameWalk(v, v'', e, x) {
      assert SameWalk(v, v', e, x) && SameWalk(v', v'', e, x);
    }
  }

  /** A round that has an entry to copy and a frame to copy into. */
  lemma CloneRoundCopies(v: Vm, o: Owners, k: nat, d: nat, i: nat)
    requires Separated(v, o) && k in o.dirs && d in o.dirs && k != d && i < ENTRIES
    requires DirOk(v, o, k) && DirOk(v, o, d) && ClonedUpTo(v, k, d, i)
    requires Present(Peek(v.mem, k, i)) && HasFrame(v.pmm)
    ensures var v' := CloneEntry(v, k, d, i);
      && Separated(v', CloneOwners(v, o, k, d, i)) && OtherDirsSame(v, v', o, d)
      && forall x: nat {:trigger ClonesAt(v'.mem, k, d, x)} ::
           x < (i + 1) * ENTRIES && x < 0x10_0000 ==> ClonesAt(v'.mem, k, d, x)
  {
    var v' := CloneEntry(v, k, d, i);
    assert Peek(v.mem, d, i) == 0;
    CloneInstallable(v, o, k, d, i);
    forall e, x: nat | e in o.dirs && e != d && x < 0x10_0000 ensures SameWalk(v, v', e, x) {
      CloneEntryWalk(v, o, k, d, i, e, x);
    }
    forall x: nat | x < (i + 1) * ENTRIES && x < 0x10_0000
      ensures ClonesAt(v'.mem, k, d, x)
    {
      assert x / ENTRIES < i ==> ClonesAt(v.mem, k, d, x);
      CloneEntryWalk(v, o, k, d, i, d, x);
      CloneEntryWalk(v, o, k, d, i, k, x);
    }
  }

  /** A round with a frame to copy into, or with nothing to copy. */
  lemma CloneRound(v: Vm, o: Owners, k: nat, d: nat, i: nat)
    requires Separated(v, o) && k in o.dirs && d in o.dirs && k != d && i < ENTRIES
    requires DirOk(v, o, k) && DirOk(v, o, d) && ClonedUpTo(v, k, d, i)
    requires Present(Peek(v.mem, k, i)) ==> HasFrame(v.pmm)
    ensures var v' := CloneEntry(v, k, d, i);
      && Separated(v', CloneOwners(v, o, k, d, i)) && ClonedUpTo(v', k, d, i + 1) && SameEntries(v.mem, v'.mem, k)
      && OtherDirsSame(v, v', o, d)
  {
    var v' := CloneEntry(v, k, d, i);
    forall j: nat | j < ENTRIES ensures Peek(v'.mem, k, j) == Peek(v.mem, k, j) {
      CloneEntryEntries(v, o, k, d, i, k, j);
    }
    forall j: nat | i + 1 <= j < ENTRIES ensures Peek(v'.mem, d, j) == 0 {
      CloneEntryEntries(v, o, k, d, i, d, j);
    }
    if Present(Peek(v.mem, k, i)) {
      CloneRoundCopies(v, o, k, d, i);
    } else {
      assert Peek(v.mem, d, i) == 0;
      assert v'.mem == v.mem;
      forall e, x: nat | e in o.dirs && e != d && x < 0x10_0000 ensures SameWalk(v, v', e, x) {
        assert DirOk(v, o, e);
      }
    }
  }

  /** What one round leaves: state v1 and owners o1, with the rounds still to come unchanged. */
  predicate RoundDone(v: Vm, o: Owners, k: nat, d: nat, i: nat, v1: Vm, o1: Owners) {
    && Roomy(v) && Roomy(v1) && i < ENTRIES && ClonedUpTo(v, k, d, i) && ClonedUpTo(v1, k, d, i + 1)
    && CloneFrom(v, k, d, i) == CloneFrom(v1, k, d, i + 1)
    && CloneFromOwners(v, o, k, d, i) == CloneFromOwners(v1, o1, k, d, i + 1)
    && Separated(v1, o1) && o1.dirs == o.dirs && OtherDirsSame(v, v1, o, d)
    && FreeFrames(v.pmm) - PresentFrom(v.mem, k, i) == FreeFrames(v1.pmm) - PresentFrom(v1.mem, k, i + 1)
  }

  lemma DoRound(v: Vm, o: Owners, k: nat, d: nat, i: nat) returns (v1: Vm, o1: Owners)
    requires Separated(v, o) && k in o.dirs && d in o.dirs && k != d && i < ENTRIES && ClonedUpTo(v, k, d, i)
    requires Present(Peek(v.mem, k, i)) ==> FreeFrames(v.pmm) > 0
    ensures RoundDone(v, o, k, d, i, v1, o1)
  {
    assert DirOk(v, o, k) && DirOk(v, o, d) && EntryOk(v, o, k, i);
    v1, o1 := CloneEntry(v, k, d, i), CloneOwners(v, o, k, d, i);
    TakeFrameCounts(v, if Present(Peek(v.mem, k, i)) then UserCopy(v.mem, Page(Peek(v.mem, k, i))) else Zeros());
    CloneRound(v, o, k, d, i);
    SameCount(v.mem, v1.mem, k, i + 1);
  }

  /** All rounds, with frames enough: the clone is complete, separate, and cost one frame a table. */
  lemma {:induction false} CloneAll(v: Vm, o: Owners, k: nat, d: nat, i: nat) returns (o': Owners)
    requires Separated(v, o) && k in o.dirs && d in o.dirs && k != d && i <= ENTRIES && ClonedUpTo(v, k, d, i)
    requires FreeFrames(v.pmm) >= PresentFrom(v.mem, k, i)
    ensures o' == CloneFromOwners(v, o, k, d, i)
    ensures var v' := CloneFrom(v, k, d, i);
      && Separated(v', o') && o'.dirs == o.dirs && ClonedUpTo(v', k, d, ENTRIES)
      && OtherDirsSame(v, v', o, d)
      && FreeFrames(v'.pmm) == FreeFrames(v.pmm) - PresentFrom(v.mem, k, i)
    decreases ENTRIES - i
  {
    if i == ENTRIES {
      o' := o;
      forall e, x: nat | e in o.dirs && e != d && x < 0x10_0000 ensures SameWalk(v, v, e, x) {
        assert DirOk(v, o, e);
      }
    } else {
      var v1, o1 := DoRound(v, o, k, d, i);
      o' := CloneAll(v1, o1, k, d, i + 1);
      OtherDirsTwice(v, v1, CloneFrom(v1, k, d, i + 1), o, d);
    }
  }

  /** Mapping and copying take frames and give none back. */
  lemma MapTakes(v: Vm, d: nat, virt: Word, phys: Word, flags: Word)
    requires Roomy(v) && InRam(v.mem, d) && IsFlags(flags)
    ensures FreeFrames(MapPage(v, d, virt, phys, flags).pmm) <= FreeFrames(v.pmm)
  {
    TakeFrameCounts(v, Zeros());
  }

  lemma {:induction false} CloneTakes(v: Vm, k: nat, d: nat, i: nat)
    requires Roomy(v) && InRam(v.mem, k) && InRam(v.mem, d) && i <= ENTRIES
    ensures FreeFrames(CloneFrom(v, k, d, i).pmm) <= FreeFrames(v.pmm)
    decreases ENTRIES - i
  {
    if i < ENTRIES {
      CloneEntryTakes(v, k, d, i);
      CloneTakes(CloneEntry(v, k, d, i), k, d, i + 1);
    }
  }

  lemma CloneEntryTakes(v: Vm, k: nat, d: nat, i: nat)
    requires Roomy(v) && InRam(v.mem, k) && InRam(v.mem, d) && i < ENTRIES
    ensures FreeFrames(CloneEntry(v, k, d, i).pmm) <= FreeFrames(v.pmm)
  {
    var pde := Peek(v.mem, k, i);
    TakeFrameCounts(v, if Present(pde) && InRam(v.mem, Page(pde)) then UserCopy(v.mem, Page(pde)) else Zeros());
  }

  /** When a frame is left at the end there was one for every copy. */
  lemma {:induction false} ClonesEnough(v: Vm, o: Owners, k: nat, d: nat, i: nat)
    requires Separated(v, o) && k in o.dirs && d in o.dirs && k != d && i <= ENTRIES && ClonedUpTo(v, k, d, i)
    requires Roomy(v) && FreeFrames(CloneFrom(v, k, d, i).pmm) > 0
    ensures FreeFrames(v.pmm) >= PresentFrom(v.mem, k, i)
    decreases ENTRIES - i
  {
    if i < ENTRIES {
      CloneTakes(v, k, d, i);
      var v1, o1 := DoRound(v, o, k, d, i);
      ClonesEnough(v1, o1, k, d, i + 1);
    }
  }

  lemma {:induction false} SameCount(mem: Memory, mem': Memory, k: nat, i: nat)
    requires SameEntries(mem, mem', k) && i <= ENTRIES
    ensures PresentFrom(mem', k, i) == PresentFrom(mem, k, i)
    decreases ENTRIES - i
  {
    if i < ENTRIES {
      assert Peek(mem', k, i) == Peek(mem, k, i);
      SameCount(mem, mem', k, i + 1);
    }
  }

  /** A frame of zeros is a directory that maps nothing and disturbs nobody. */
  lemma NewDirectory(v: Vm, o: Owners)
    requires Separated(v, o) && HasFrame(v.pmm)
    ensures var (v', d) := TakeFrame(v, Zeros()); var o' := o.(dirs := o.dirs + {d});
      && d !in o.dirs && InRam(v'.mem, d) && Separated(v', o')
      && (forall j: nat {:trigger Peek(v'.mem, d, j)} :: j < ENTRIES ==> Peek(v'.mem, d, j) == 0)
      && OtherDirsSame(v, v', o', d)
      && (forall e {:trigger SameEntries(v.mem, v'.mem, e)} :: e in o.dirs ==> SameEntries(v.mem, v'.mem, e))
  {
    var (v', d) := TakeFrame(v, Zeros());
    var o' := o.(dirs := o.dirs + {d});
    NextIsFresh(v, o, v'.pmm, d);
    FilledSeparated(v, o, v'.pmm, d, Zeros());
    forall j: nat | j < ENTRIES ensures Peek(v'.mem, d, j) == 0 {
      ZeroTable(v, d, j);
    }
    forall e, j: nat | e in o.dirs && j < ENTRIES ensures InRam(v'.mem, e) && EntryOk(v', o', e, j) {
      FilledEntry(v, o, v'.pmm, d, Zeros(), e, j);
    }
    forall e | e in o.dirs ensures SameEntries(v.mem, v'.mem, e) {
      assert DirOk(v, o, e);
      forall j: nat | j < ENTRIES ensures Peek(v'.mem, e, j) == Peek(v.mem, e, j) {
        FilledEntry(v, o, v'.pmm, d, Zeros(), e, j);
      }
    }
    forall e | e in o'.dirs ensures DirOk(v', o', e) {
      assert e in o.dirs ==> DirOk(v', o, e);
      assert e == d ==> forall j: nat :: j < ENTRIES ==> Peek(v'.mem, d, j) == 0;
    }
    forall e, x: nat | e in o'.dirs && e != d && x < 0x10_0000 ensures SameWalk(v, v', e, x) {
      FilledWalk(v, o, v'.pmm, d, Zeros(), e, x);
    }
    assert Separated(v', o');
    assert OtherDirsSame(v, v', o', d);
  }

  /** The kernel's directory, which vmm_create_directory copies. */
  predicate KernelDir(v: Vm, o: Owners, k: nat) {
    k in o.dirs && v.kernelDir == k * PAGE_SIZE && v.kernelDir != 0 && Page(v.kernelDir) == k
  }

  /** Directory cloning: with a frame for the directory and one for every table of the kernel, the new
      directory translates every page as the kernel does with the user right added, owns all its
      tables, changes no translation of any other directory, and costs exactly those frames. */
  lemma DirectoryCloned(v: Vm, o: Owners, k: nat) returns (o': Owners)
    requires Separated(v, o) && KernelDir(v, o, k) && InRam(v.mem, k)
    requires FreeFrames(v.pmm) >= 1 + PresentFrom(v.mem, k, 0)
    ensures HasFrame(v.pmm) && o' == CreateOwners(v, o)
    ensures var (v', a) := CreateDirectory(v); var d := Page(a);
      && a != 0 && a == d * PAGE_SIZE && d !in o.dirs && o'.dirs == o.dirs + {d}
      && Separated(v', o') && InRam(v'.mem, d)
      && (forall x: nat {:trigger Walk(v'.mem, d, x)} :: x < 0x10_0000 ==>
            Walk(v'.mem, d, x) == WithUser(Walk(v.mem, k, x)))
      && OtherDirsSame(v, v', o, d)
      && FreeFrames(v'.pmm) == FreeFrames(v.pmm) - 1 - PresentFrom(v.mem, k, 0)
  {
    TakeFrameCounts(v, Zeros());
    NewDirectory(v, o);
    var (v1, d) := TakeFrame(v, Zeros());
    NextIsFresh(v, o, v1.pmm, d);
    Pages(d * PAGE_SIZE, d, 0);
    assert SameEntries(v.mem, v1.mem, k);
    SameCount(v.mem, v1.mem, k, 0);
    o' := CloneAll(v1, o.(dirs := o.dirs + {d}), k, d, 0);
    var v' := CreateDirectory(v).0;
    OtherDirsTwice(v, v1, v', o, d);
    forall x: nat | x < 0x10_0000 ensures Walk(v'.mem, d, x) == WithUser(Walk(v.mem, k, x)) {
      assert SameWalk(v, v', k, x) && ClonesAt(v'.mem, k, d, x);
    }
  }

  /** A new directory that leaves a frame shares no table: there was a frame for each. */
  lemma DirectoryEnough(v: Vm, o: Owners, k: nat)
    requires Separated(v, o) && KernelDir(v, o, k) && InRam(v.mem, k)
    requires HasFrame(v.pmm) && FreeFrames(CreateDirectory(v).0.pmm) > 0
    ensures FreeFrames(v.pmm) >= 1 + PresentFrom(v.mem, k, 0)
  {
    TakeFrameCounts(v, Zeros());
    NewDirectory(v, o);
    var (v1, d) := TakeFrame(v, Zeros());
    assert SameEntries(v.mem, v1.mem, k);
    SameCount(v.mem, v1.mem, k, 0);
    ClonesEnough(v1, o.(dirs := o.dirs + {d}), k, d, 0);
  }

  // ---- the words written ----------------------------------------------------------------------------

  /** The two words a mapping writes: the directory entry, made with its table or widened for a user mapping, and
      the table entry, which keeps all twelve flag bits it was given. */
  lemma MapWrites(v: Vm, o: Owners, d: nat, virt: Word, phys: Word, flags: Word)
    requires Separated(v, o) && d in o.dirs && flags < 4096
    requires Roomy(v) && InRam(v.mem, d) && CanMap(v, d, virt)
    ensures var i, j, v' := virt / 4096 / 1024, virt / 4096 % 1024, MapPage(v, d, virt, phys, flags);
      var pde, pde' := v.mem[d * 1024 + i], v'.mem[d * 1024 + i];
      && pde' == (if pde % 2 == 0 then Pmm.Alloc(v.pmm).1 + With(With(flags, 1), 2)
                  else if flags / 4 % 2 == 0 then pde
                  else if flags / 2 % 2 == 0 then With(pde, 4) else With(With(pde, 4), 2))
      && InRam(v'.mem, pde' / 4096)
      && v'.mem[pde' / 4096 * 1024 + j] == phys / 4096 * 4096 + With(flags, 1)
  {
    var i, j := Page(virt) / ENTRIES, Page(virt) % ENTRIES;
    var pde := Peek(v.mem, d, i);
    MapWords(pde, flags);
    var v2, t, pde' := MapTable(v, o, d, i, flags);
    assert Peek(MapPage(v, d, virt, phys, flags).mem, d, i) == pde' && Page(pde') == t
      && Peek(MapPage(v, d, virt, phys, flags).mem, t, j) == Entry(Page(phys), OrPresent(flags)) by {
      var w := Entry(Page(phys), OrPresent(flags));
      PeekPoke(v2.mem, t, j, w, d, i);
      PeekPoke(v2.mem, t, j, w, t, j);
    }
  }

  lemma MapWords(pde: Word, flags: Word)
    ensures OrPresent(flags) == With(flags, 1) && OrWritable(OrPresent(flags)) == With(With(flags, 1), 2)
    ensures Propagated(pde, flags) == if flags / 2 % 2 == 0 then With(pde, 4) else With(With(pde, 4), 2)
    ensures (User(flags) <==> flags / 4 % 2 == 1) && (Present(pde) <==> pde % 2 == 1)
  {
    LowBitsAre(pde);
    LowBitsAre(flags);
    LowBitsAre(OrPresent(flags));
    LowBitsAre(OrUser(pde));
  }

  /** The table a mapping writes to, and the directory entry that leads to it. */
  lemma MapTable(v: Vm, o: Owners, d: nat, i: nat, flags: Word) returns (v2: Vm, t: nat, pde': Word)
    requires Separated(v, o) && d in o.dirs && i < ENTRIES && IsFlags(flags)
    requires Roomy(v) && InRam(v.mem, d) && (Present(Peek(v.mem, d, i)) || HasFrame(v.pmm))
    ensures var pde := Peek(v.mem, d, i);
      && (v2, Some(t)) == GetOrCreateTable(if Present(pde) && User(flags) then Widened(v, d, i, Propagated(pde, flags)) else v, d, i,
                                           OrWritable(OrPresent(flags)))
      && InRam(v2.mem, d) && InRam(v2.mem, t) && t != d && Peek(v2.mem, d, i) == pde' && Page(pde') == t
      && pde' == if Present(pde) then (if User(flags) then Propagated(pde, flags) else pde)
                 else Pmm.Alloc(v.pmm).1 + OrWritable(OrPresent(flags))
  {
    var pde := Peek(v.mem, d, i);
    assert DirOk(v, o, d) && EntryOk(v, o, d, i);
    if Present(pde) {
      pde' := if User(flags) then Propagated(pde, flags) else pde;
      PeekPoke(v.mem, d, i, pde', d, i);
      v2 := if User(flags) then Widened(v, d, i, pde') else v;
      t := Page(pde');
    } else {
      var (v1, n) := TakeFrame(v, Zeros());
      NextIsFresh(v, o, v1.pmm, n);
      pde' := Entry(n, OrWritable(OrPresent(flags)));
      PeekPoke(v1.mem, d, i, pde', d, i);
      v2, t := Installed(v1, d, i, pde'), n;
    }
  }

  /** An unmapping clears the table entry, and leaves the directory entry. */
  lemma UnmapWrites(v: Vm, o: Owners, d: nat, virt: Word)
    requires Separated(v, o) && d in o.dirs && Roomy(v) && InRam(v.mem, d)
    ensures var i, j, v' := virt / 4096 / 1024, virt / 4096 % 1024, UnmapPage(v, d, virt); var pde := v.mem[d * 1024 + i];
      && v'.mem[d * 1024 + i] == pde
      && (pde % 2 == 1 ==> InRam(v'.mem, pde / 4096) && v'.mem[pde / 4096 * 1024 + j] == 0)
      && (pde % 2 == 0 ==> v' == v)
  {
    var i, j := Page(virt) / ENTRIES, Page(virt) % ENTRIES;
    var pde := Peek(v.mem, d, i);
    assert DirOk(v, o, d) && EntryOk(v, o, d, i);
    LowBitsAre(pde);
    if Present(pde) {
      PeekPoke(v.mem, Page(pde), j, 0, d, i);
      PeekPoke(v.mem, Page(pde), j, 0, Page(pde), j);
    }
  }

  /** The words one round of the copying loop writes: an absent entry stays 0; a copy gets a frame of its own, the
      original's twelve flag bits and the user bit, and every word of the original with the user bit; without a
      frame the entry leads to the kernel's own table. */
  lemma CloneWrites(v: Vm, o: Owners, k: nat, d: nat, i: nat, j: nat)
    requires Separated(v, o) && k in o.dirs && d in o.dirs && k != d && i < 1024 && j < 1024
    requires Roomy(v) && InRam(v.mem, k) && InRam(v.mem, d)
    ensures var v' := CloneEntry(v, k, d, i); var pde, pde' := v.mem[k * 1024 + i], v'.mem[d * 1024 + i];
      if pde % 2 == 0 then pde' == 0
      else if Pmm.Alloc(v.pmm).1 == 0 then pde' == With(pde, 4)
      else
        && pde' == Pmm.Alloc(v.pmm).1 + With(pde % 4096, 4) && pde' / 4096 == Pmm.Alloc(v.pmm).1 / 4096
        && InRam(v.mem, pde / 4096) && InRam(v'.mem, pde' / 4096)
        && v'.mem[pde' / 4096 * 1024 + j] == With(v.mem[pde / 4096 * 1024 + j], 4)
  {
    var pde := Peek(v.mem, k, i);
    assert DirOk(v, o, k) && DirOk(v, o, d) && EntryOk(v, o, k, i);
    LowBitsAre(pde);
    if Present(pde) && HasFrame(v.pmm) {
      LowBitsAre(FlagsOf(pde));
      LowBitsAre(Peek(v.mem, Page(pde), j));
      CopyWrites(v, k, d, i, j);
    } else {
      PeekPoke(v.mem, d, i, if Present(pde) then OrUser(pde) else 0, d, i);
    }
  }

  lemma CopyWrites(v: Vm, k: nat, d: nat, i: nat, j: nat)
    requires Roomy(v) && InRam(v.mem, k) && InRam(v.mem, d) && Allocated(v.pmm, d) && i < ENTRIES && j < ENTRIES
    requires var pde := Peek(v.mem, k, i); Present(pde) && HasFrame(v.pmm) && InRam(v.mem, Page(pde))
    ensures var pde, v' := Peek(v.mem, k, i), CloneEntry(v, k, d, i); var n := Page(Pmm.Alloc(v.pmm).1);
      && n < RAM_PAGES && Pmm.Alloc(v.pmm).1 == n * PAGE_SIZE && InRam(v'.mem, n) && InRam(v'.mem, d)
      && Peek(v'.mem, d, i) == Entry(n, OrUser(FlagsOf(pde)))
      && Peek(v'.mem, n, j) == OrUser(Peek(v.mem, Page(pde), j))
  {
    var pde := Peek(v.mem, k, i);
    var t := UserCopy(v.mem, Page(pde));
    var (v1, n) := TakeFrame(v, t);
    NextIsFresh(v, Owners({}, map[]), v1.pmm, n);
    var w := Entry(n, OrUser(FlagsOf(pde)));
    PeekPoke(v1.mem, d, i, w, d, i);
    PeekPoke(v1.mem, d, i, w, n, j);
    PeekSetPage(v.mem, n, t, n, j);
  }

  // ---- histories ------------------------------------------------------------------------------------

  /** What happens to address spaces: mappings, unmappings, new directories, and frames taken for data. */
  datatype Change =
    | Map(dir: nat, virt: Word, phys: Word, flags: Word)
    | Unmap(dir: nat, virt: Word)
    | Clone
    | Data(words: seq<Word>)

  /** There is a frame for a directory and for each of its tables. */
  predicate CanClone(v: Vm, o: Owners) {
    && Roomy(v) && KernelDir(v, o, Page(v.kernelDir)) && InRam(v.mem, Page(v.kernelDir)) && HasFrame(v.pmm)
    && FreeFrames(v.pmm) >= 1 + PresentFrom(v.mem, Page(v.kernelDir), 0)
  }

  /** One change, and what it does to the owners. */
  predicate Changes(v: Vm, o: Owners, c: Change, v': Vm, o': Owners) {
    && Roomy(v)
    && match c
       case Map(d, virt, phys, flags) =>
         && d in o.dirs && InRam(v.mem, d) && IsFlags(flags)
         && v' == MapPage(v, d, virt, phys, flags) && o' == MapOwners(v, o, d, virt)
       case Unmap(d, virt) => d in o.dirs && InRam(v.mem, d) && v' == UnmapPage(v, d, virt) && o' == o
       case Clone => CanClone(v, o) && v' == CreateDirectory(v).0 && o' == CreateOwners(v, o)
       case Data(t) => HasFrame(v.pmm) && |t| == ENTRIES && v' == TakeFrame(v, t).0 && o' == o
  }

  predicate History(vs: seq<Vm>, os: seq<Owners>, cs: seq<Change>) {
    && |vs| == |os| == |cs| + 1 && Separated(vs[0], os[0])
    && forall k {:trigger cs[k]} :: 0 <= k < |cs| ==> Changes(vs[k], os[k], cs[k], vs[k + 1], os[k + 1])
  }

  /** The change names directory e. */
  predicate Concerns(c: Change, e: nat) { (c.Map? || c.Unmap?) && c.dir == e }

  /** The change names page x of directory e. */
  predicate Names(c: Change, e: nat, x: nat) { Concerns(c, e) && Page(c.virt) == x }

  lemma CloneKeepsWalks(v: Vm, o: Owners, v': Vm, o': Owners)
    requires Separated(v, o) && Changes(v, o, Clone, v', o')
    ensures Separated(v', o') && o.dirs <= o'.dirs && AllSame(v, v', o)
  {
    var o1 := DirectoryCloned(v, o, Page(v.kernelDir));
    forall e, x: nat | e in o.dirs && x < 0x10_0000 ensures SameWalk(v, v', e, x) { }
  }

  lemma DataKeepsWalks(v: Vm, o: Owners, t: seq<Word>, v': Vm)
    requires Separated(v, o) && Changes(v, o, Data(t), v', o)
    ensures Separated(v', o) && AllSame(v, v', o)
  {
    NextIsFresh(v, o, v'.pmm, TakeFrame(v, t).1);
    FilledSeparated(v, o, v'.pmm, TakeFrame(v, t).1, t);
    forall e, x: nat | e in o.dirs && x < 0x10_0000 ensures SameWalk(v, v', e, x) {
      FilledWalk(v, o, v'.pmm, TakeFrame(v, t).1, t, e, x);
    }
  }

  predicate AllSame(v: Vm, v': Vm, o: Owners) {
    forall e, x: nat {:trigger SameWalk(v, v', e, x)} :: e in o.dirs && x < 0x10_0000 ==> SameWalk(v, v', e, x)
  }

  /** Every change keeps the invariant and every translation it does not name. */
  lemma ChangeKeeps(v: Vm, o: Owners, c: Change, v': Vm, o': Owners)
    requires Separated(v, o) && Changes(v, o, c, v', o')
    ensures Separated(v', o') && o.dirs <= o'.dirs
    ensures forall e, x: nat {:trigger SameWalk(v, v', e, x)} :: e in o.dirs && x < 0x10_0000 && !Names(c, e, x) ==> SameWalk(v, v', e, x)
  {
    match c
    case Map(d, virt, phys, flags) =>
      MapIsolation(v, o, d, virt, phys, flags);
      forall e, x: nat | e in o.dirs && x < 0x10_0000 && !Names(c, e, x) ensures SameWalk(v, v', e, x) {
        assert DirOk(v, o, e);
      }
    case Unmap(d, virt) => UnmapIsolation(v, o, d, virt);
    case Clone => CloneKeepsWalks(v, o, v', o');
    case Data(t) => DataKeepsWalks(v, o, t, v');
  }

  lemma HistoryStep(vs: seq<Vm>, os: seq<Owners>, cs: seq<Change>, k: nat, n: nat)
    requires History(vs, os, cs) && n == k + 1 < |vs| && Separated(vs[k], os[k])
    ensures Separated(vs[n], os[n]) && os[k].dirs <= os[n].dirs
    ensures forall e, x: nat {:trigger SameWalk(vs[k], vs[n], e, x)} ::
      e in os[k].dirs && x < 0x10_0000 && !Names(cs[k], e, x) ==> SameWalk(vs[k], vs[n], e, x)
  {
    assert Changes(vs[k], os[k], cs[k], vs[k + 1], os[k + 1]);
    ChangeKeeps(vs[k], os[k], cs[k], vs[n], os[n]);
  }

  /** Over any history of mappings, unmappings, new directories and frames taken for data, no table is
      shared and table rights never exceed directory rights. */
  lemma {:induction false} HistorySeparated(vs: seq<Vm>, os: seq<Owners>, cs: seq<Change>, k: nat)
    requires History(vs, os, cs) && k < |vs|
    ensures Separated(vs[k], os[k])
    decreases k
  {
    if k > 0 {
      HistorySeparated(vs, os, cs, k - 1);
      HistoryStep(vs, os, cs, k - 1, k);
    }
  }

  lemma {:induction false} DirectoriesStay(vs: seq<Vm>, os: seq<Owners>, cs: seq<Change>, j: nat, k: nat)
    requires History(vs, os, cs) && j <= k < |vs|
    ensures os[j].dirs <= os[k].dirs
    decreases k
  {
    if j < k {
      DirectoriesStay(vs, os, cs, j, k - 1);
      HistorySeparated(vs, os, cs, k - 1);
      HistoryStep(vs, os, cs, k - 1, k);
    }
  }

  /** Between any two instants of any such history, a page of a directory keeps its translation and its
      rights as long as no change names that very page of that very directory. */
  lemma {:induction false} Untouched(vs: seq<Vm>, os: seq<Owners>, cs: seq<Change>, e: nat, x: nat, j: nat, k: nat)
    requires History(vs, os, cs) && j <= k < |vs| && e in os[j].dirs && x < 0x10_0000
    requires forall i :: j <= i < k ==> !Names(cs[i], e, x)
    ensures SameWalk(vs[j], vs[k], e, x)
    decreases k
  {
    if j < k {
      Untouched(vs, os, cs, e, x, j, k - 1);
      DirectoriesStay(vs, os, cs, j, k - 1);
      HistorySeparated(vs, os, cs, k - 1);
      HistoryStep(vs, os, cs, k - 1, k);
      assert SameWalk(vs[k - 1], vs[k], e, x);
    } else {
      HistorySeparated(vs, os, cs, j);
      assert DirOk(vs[j], os[j], e);
    }
  }

  /** A directory created at one instant and its kernel's: whatever is mapped, unmapped or created later, as
      long as nothing names one of them it translates as it did, however the other has changed. */
  lemma Independent(vs: seq<Vm>, os: seq<Owners>, cs: seq<Change>, j: nat, k: nat, d: nat, x: nat)
    requires History(vs, os, cs) && j < k < |vs| && cs[j] == Clone && CanClone(vs[j], os[j]) && x < 0x10_0000
    requires d == Page(CreateDirectory(vs[j]).1)
    ensures var kd := Page(vs[j].kernelDir);
      && d !in os[j].dirs && d in os[k].dirs && kd in os[k].dirs && InRam(vs[j].mem, kd)
      && ((forall i :: j < i < k ==> !Concerns(cs[i], d)) ==>
            InRam(vs[k].mem, d) && Walk(vs[k].mem, d, x) == WithUser(Walk(vs[j].mem, kd, x)))
      && ((forall i :: j < i < k ==> !Concerns(cs[i], kd)) ==>
            InRam(vs[k].mem, kd) && Walk(vs[k].mem, kd, x) == Walk(vs[j].mem, kd, x))
  {
    var kd := Page(vs[j].kernelDir);
    HistorySeparated(vs, os, cs, j);
    assert Changes(vs[j], os[j], cs[j], vs[j + 1], os[j + 1]);
    var o' := DirectoryCloned(vs[j], os[j], kd);
    assert SameWalk(vs[j], vs[j + 1], kd, x);
    DirectoriesStay(vs, os, cs, j + 1, k);
    if forall i :: j < i < k ==> !Concerns(cs[i], d) {
      Untouched(vs, os, cs, d, x, j + 1, k);
    }
    if forall i :: j < i < k ==> !Concerns(cs[i], kd) {
      Untouched(vs, os, cs, kd, x, j + 1, k);
    }
  }

  // ---- without enough frames ----------------------------------------------------------------

  /** Directories k and d have no table in common. */
  predicate NothingShared(mem: Memory, k: nat, d: nat) {
    && InRam(mem, k) && InRam(mem, d)
    && forall i: nat, j: nat {:trigger Peek(mem, k, i), Peek(mem, d, j)} ::
         i < ENTRIES && j < ENTRIES && Present(Peek(mem, k, i)) && Present(Peek(mem, d, j)) ==>
           Page(Peek(mem, k, i)) != Page(Peek(mem, d, j))
  }

  /** Once the allocator is dry the rounds copy nothing more and write only their own entries. */
  lemma {:induction false} CloneDry(v: Vm, k: nat, d: nat, i: nat, j: nat)
    requires Roomy(v) && InRam(v.mem, k) && InRam(v.mem, d) && k != d && i <= ENTRIES && !HasFrame(v.pmm) && j < ENTRIES
    ensures var v' := CloneFrom(v, k, d, i);
      && Peek(v'.mem, k, j) == Peek(v.mem, k, j)
      && (j < i ==> Peek(v'.mem, d, j) == Peek(v.mem, d, j))
    decreases ENTRIES - i
  {
    if i < ENTRIES {
      var pde := Peek(v.mem, k, i);
      var w := if Present(pde) then OrUser(pde) else 0;
      PeekPoke(v.mem, d, i, w, k, j);
      PeekPoke(v.mem, d, i, w, d, j);
      CloneDry(CloneEntry(v, k, d, i), k, d, i + 1, j);
    }
  }

  lemma {:induction false} CloneRunsOut(v: Vm, o: Owners, k: nat, d: nat, i: nat) returns (j: nat)
    requires Separated(v, o) && k in o.dirs && d in o.dirs && k != d && i <= ENTRIES && ClonedUpTo(v, k, d, i)
    requires FreeFrames(v.pmm) < PresentFrom(v.mem, k, i)
    ensures i <= j < ENTRIES
    ensures var mem := CloneFrom(v, k, d, i).mem;
      Present(Peek(mem, k, j)) && Peek(mem, d, j) == OrUser(Peek(mem, k, j))
    decreases ENTRIES - i
  {
    var pde := Peek(v.mem, k, i);
    if Present(pde) && FreeFrames(v.pmm) <= 0 {
      j := i;
      StartsSharing(v, o, k, d, i);
    } else {
      var v1, o1 := DoRound(v, o, k, d, i);
      j := CloneRunsOut(v1, o1, k, d, i + 1);
    }
  }

  lemma StartsSharing(v: Vm, o: Owners, k: nat, d: nat, i: nat)
    requires Separated(v, o) && k in o.dirs && d in o.dirs && k != d && i < ENTRIES && ClonedUpTo(v, k, d, i)
    requires Present(Peek(v.mem, k, i)) && FreeFrames(v.pmm) <= 0
    ensures var mem := CloneFrom(v, k, d, i).mem;
      Present(Peek(mem, k, i)) && Peek(mem, d, i) == OrUser(Peek(mem, k, i))
  {
    var pde := Peek(v.mem, k, i);
    TakeFrameCounts(v, Zeros());
    PeekPoke(v.mem, d, i, OrUser(pde), d, i);
    PeekPoke(v.mem, d, i, OrUser(pde), k, i);
    CloneDry(CloneEntry(v, k, d, i), k, d, i + 1, i);
  }

  /** The frame of a new directory, as the copying loop starts. */
  lemma DirectoryStarts(v: Vm, o: Owners, k: nat) returns (v1: Vm, d: nat)
    requires Separated(v, o) && KernelDir(v, o, k) && InRam(v.mem, k) && HasFrame(v.pmm)
    ensures Separated(v1, o.(dirs := o.dirs + {d})) && d != k && d * PAGE_SIZE < TWO_TO_THE_32 && Page(d * PAGE_SIZE) == d
    ensures ClonedUpTo(v1, k, d, 0) && CreateDirectory(v) == (CloneFrom(v1, k, d, 0), d * PAGE_SIZE)
    ensures FreeFrames(v1.pmm) == FreeFrames(v.pmm) - 1 && PresentFrom(v1.mem, k, 0) == PresentFrom(v.mem, k, 0)
  {
    TakeFrameCounts(v, Zeros());
    NewDirectory(v, o);
    v1, d := TakeFrame(v, Zeros()).0, TakeFrame(v, Zeros()).1;
    NextIsFresh(v, o, v1.pmm, d);
    Pages(d * PAGE_SIZE, d, 0);
    assert SameEntries(v.mem, v1.mem, k);
    SameCount(v.mem, v1.mem, k, 0);
  }

  /** The exact condition for a new directory to share no table with the kernel's: a free frame for
      itself and one for every table the kernel has. */
  lemma SharesNothingIff(v: Vm, o: Owners, k: nat)
    requires Separated(v, o) && KernelDir(v, o, k) && InRam(v.mem, k) && HasFrame(v.pmm)
    ensures var (v', a) := CreateDirectory(v);
      NothingShared(v'.mem, k, Page(a)) <==> FreeFrames(v.pmm) >= 1 + PresentFrom(v.mem, k, 0)
  {
    var v1, d := DirectoryStarts(v, o, k);
    if FreeFrames(v.pmm) >= 1 + PresentFrom(v.mem, k, 0) {
      var o' := CloneAll(v1, o.(dirs := o.dirs + {d}), k, d, 0);
      SeparateDirs(CreateDirectory(v).0, o', k, d);
    } else {
      var j := CloneRunsOut(v1, o.(dirs := o.dirs + {d}), k, d, 0);
    }
  }

  /** Without frames enough, some entry of the new directory points at the kernel's own table. */
  lemma SharesSome(v: Vm, o: Owners, k: nat) returns (j: nat)
    requires Separated(v, o) && KernelDir(v, o, k) && InRam(v.mem, k) && HasFrame(v.pmm)
    requires FreeFrames(v.pmm) < 1 + PresentFrom(v.mem, k, 0)
    ensures j < ENTRIES
    ensures var (v', a) := CreateDirectory(v); var d := Page(a);
      && d != k && InRam(v'.mem, k) && InRam(v'.mem, d)
      && Present(Peek(v'.mem, k, j)) && Peek(v'.mem, d, j) == OrUser(Peek(v'.mem, k, j))
  {
    var v1, d := DirectoryStarts(v, o, k);
    j := CloneRunsOut(v1, o.(dirs := o.dirs + {d}), k, d, 0);
  }

  lemma SeparateDirs(v: Vm, o: Owners, k: nat, d: nat)
    requires Separated(v, o) && k in o.dirs && d in o.dirs && k != d
    ensures NothingShared(v.mem, k, d)
  {
    assert DirOk(v, o, k) && DirOk(v, o, d);
    forall i: nat, j: nat | i < ENTRIES && j < ENTRIES && Present(Peek(v.mem, k, i)) && Present(Peek(v.mem, d, j))
      ensures Page(Peek(v.mem, k, i)) != Page(Peek(v.mem, d, j))
    {
      assert EntryOk(v, o, k, i) && EntryOk(v, o, d, j);
    }
  }

  /** What a shared table costs: a mapping made in d appears in k. */
  lemma SharedTableLeaks(v: Vm, k: nat, d: nat, virt: Word, phys: Word, flags: Word)
    requires Roomy(v) && InRam(v.mem, k) && InRam(v.mem, d) && k != d && IsFlags(flags)
    requires var i := Page(virt) / ENTRIES; var pk, pd := Peek(v.mem, k, i), Peek(v.mem, d, i);
      Present(pk) && Present(pd) && Page(pk) == Page(pd) && InRam(v.mem, Page(pk)) && Page(pk) != k && Page(pk) != d
    ensures var v' := MapPage(v, d, virt, phys, flags);
      Walk(v'.mem, k, Page(virt)).Some? && Walk(v'.mem, k, Page(virt)).value.page == Page(phys)
  {
    var i, j := Page(virt) / ENTRIES, Page(virt) % ENTRIES;
    var pd := Peek(v.mem, d, i);
    var v1 := if User(flags) then Widened(v, d, i, Propagated(pd, flags)) else v;
    PeekPoke(v.mem, d, i, Propagated(pd, flags), k, i);
    PeekPoke(v.mem, d, i, Propagated(pd, flags), d, i);
    var w := Entry(Page(phys), OrPresent(flags));
    PeekPoke(v1.mem, Page(pd), j, w, k, i);
    PeekPoke(v1.mem, Page(pd), j, w, Page(pd), j);
  }
}
