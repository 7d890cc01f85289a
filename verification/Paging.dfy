/**
 Two-level page tables held in physical memory (32-bit paging, SDM 3A sections 4.3 and 4.6): their
 entries, the walk, and the operations of the virtual memory manager on values.
 */
module Paging {
  import opened Basics
  import Pmm

  // ---- entries ----------------------------------------------------------------------------

  const ENTRIES := 1024
  const PRESENT: Word := 1
  const WRITABLE: Word := 2
  const USER: Word := 4

  /** The three low bits of an entry. */
  predicate Present(w: Word) { w % 8 == 1 || w % 8 == 3 || w % 8 == 5 || w % 8 == 7 }
  predicate Writable(w: Word) { w % 8 == 2 || w % 8 == 3 || w % 8 == 6 || w % 8 == 7 }
  predicate User(w: Word) { w % 8 >= 4 }

  /** The page number in an entry or an address. */
  function Page(w: Word): nat { w / PAGE_SIZE }

  /** A change of the low three bits leaves the page number. */
  lemma LowBits(w: Word, d: int)
    requires 0 <= w % 8 + d < 8
    ensures 0 <= w + d < TWO_TO_THE_32 && (w + d) % 8 == w % 8 + d && Page(w + d) == Page(w)
  {
    var q, r := w / 8, w % 8;
    assert w == 8 * q + r && q < TWO_TO_THE_32 / 8;
    assert (w + d) / 8 == q;
    assert w / PAGE_SIZE == q / 512 && (w + d) / PAGE_SIZE == q / 512;
  }

  function OrPresent(w: Word): (r: Word)
    ensures Present(r) && Page(r) == Page(w) && (Writable(r) <==> Writable(w)) && (User(r) <==> User(w))
  {
    if Present(w) then w else
      LowBits(w, PRESENT);
      w + PRESENT
  }

  function OrWritable(w: Word): (r: Word)
    ensures Writable(r) && Page(r) == Page(w) && (Present(r) <==> Present(w)) && (User(r) <==> User(w))
  {
    if Writable(w) then w else
      LowBits(w, WRITABLE);
      w + WRITABLE
  }

  function OrUser(w: Word): (r: Word)
    ensures User(r) && Page(r) == Page(w) && (Present(r) <==> Present(w)) && (Writable(r) <==> Writable(w))
  {
    if User(w) then w else
      LowBits(w, USER);
      w + USER
  }

  /** A word with one bit set. */
  function With(w: int, bit: int): int
    requires bit > 0
  {
    if w / bit % 2 == 1 then w else w + bit
  }

  /** The three bits, and no other, are the ones tested and set. */
  lemma LowBitsAre(w: Word)
    ensures (Present(w) <==> w % 2 == 1) && (Writable(w) <==> w / 2 % 2 == 1) && (User(w) <==> w / 4 % 2 == 1)
    ensures OrPresent(w) == With(w, 1) && OrWritable(w) == With(w, 2) && OrUser(w) == With(w, 4)
  {
    Eighth(w, w / 8, w % 8);
  }

  lemma Eighth(w: int, q: int, r: int)
    requires w == 8 * q + r && 0 <= r < 8
    ensures w % 8 == r && w % 2 == r % 2 && w / 2 % 2 == r / 2 % 2 && w / 4 % 2 == r / 4 % 2
  {
    Eighths(w, q, r);
    Halved(w, 4 * q, r);
    assert w / 2 == 4 * q + r / 2;
    Halved(w / 2, 2 * q, r / 2);
    assert w / 4 == 2 * q + r / 4;
    Halved(w / 4, q, r / 4);
  }

  lemma Halved(x: int, a: int, b: int)
    requires x == 2 * a + b
    ensures x % 2 == b % 2
  {
  }

  predicate IsFlags(f: Word) { Page(f) == 0 }

  lemma EntryBits(n: nat, flags: Word)
    requires n < 0x10_0000 && IsFlags(flags)
    ensures 0 <= n * PAGE_SIZE + flags < TWO_TO_THE_32
    ensures (n * PAGE_SIZE + flags) % 8 == flags % 8 && Page(n * PAGE_SIZE + flags) == n
  {
    assert flags < PAGE_SIZE;
    var x, q, r := n * PAGE_SIZE + flags, n * 512 + flags / 8, flags % 8;
    assert x == 8 * q + r;
    Eighths(x, q, r);
    Pages(x, n, flags);
  }

  lemma Eighths(x: int, q: int, r: int)
    requires x == 8 * q + r && 0 <= r < 8
    ensures x % 8 == r && x / 8 == q
  {
  }

  lemma Pages(x: int, q: int, r: int)
    requires x == PAGE_SIZE * q + r && 0 <= r < PAGE_SIZE
    ensures x / PAGE_SIZE == q && x % PAGE_SIZE == r
  {
  }

  /** The entry that points at page n with the given flags. */
  function Entry(n: nat, flags: Word): (r: Word)
    requires n < 0x10_0000 && IsFlags(flags)
    ensures Page(r) == n && r % 8 == flags % 8
  {
    EntryBits(n, flags);
    n * PAGE_SIZE + flags
  }

  /** The flags of an entry: its low twelve bits. */
  function FlagsOf(w: Word): (f: Word)
    ensures IsFlags(f) && f % 8 == w % 8
  {
    var f := w % PAGE_SIZE;
    assert w == (w / PAGE_SIZE) * 512 * 8 + f;
    f
  }

  // ---- memory by pages --------------------------------------------------------------------

  type Memory = seq<Word>

  predicate InRam(mem: Memory, n: nat) { n * ENTRIES + ENTRIES <= |mem| }

  /** Entry i of the table in page n. */
  function Peek(mem: Memory, n: nat, i: nat): Word
    requires InRam(mem, n) && i < ENTRIES
  {
    mem[n * ENTRIES + i]
  }

  function Poke(mem: Memory, n: nat, i: nat, w: Word): (m: Memory)
    requires InRam(mem, n) && i < ENTRIES
    ensures |m| == |mem|
  {
    mem[n * ENTRIES + i := w]
  }

  /** The table in page n replaced by t. */
  function SetPage(mem: Memory, n: nat, t: seq<Word>): (m: Memory)
    requires InRam(mem, n) && |t| == ENTRIES
    ensures |m| == |mem|
  {
    seq(|mem|, w requires 0 <= w < |mem| =>
      if n * ENTRIES <= w < n * ENTRIES + ENTRIES then t[w - n * ENTRIES] else mem[w])
  }

  function Zeros(): (t: seq<Word>)
    ensures |t| == ENTRIES
  {
    seq(ENTRIES, i => 0)
  }

  /** A copy of the table in page n with every entry made a user entry. */
  function UserCopy(mem: Memory, n: nat): (t: seq<Word>)
    requires InRam(mem, n)
    ensures |t| == ENTRIES
  {
    seq(ENTRIES, i requires 0 <= i < ENTRIES => OrUser(Peek(mem, n, i)))
  }

  lemma PeekPoke(mem: Memory, n: nat, i: nat, w: Word, k: nat, j: nat)
    requires InRam(mem, n) && i < ENTRIES && InRam(mem, k) && j < ENTRIES
    ensures InRam(Poke(mem, n, i, w), k)
    ensures Peek(Poke(mem, n, i, w), k, j) == if k == n && j == i then w else Peek(mem, k, j)
  {
  }

  lemma PeekSetPage(mem: Memory, n: nat, t: seq<Word>, k: nat, j: nat)
    requires InRam(mem, n) && |t| == ENTRIES && InRam(mem, k) && j < ENTRIES
    ensures InRam(SetPage(mem, n, t), k)
    ensures Peek(SetPage(mem, n, t), k, j) == if k == n then t[j] else Peek(mem, k, j)
  {
  }

  // ---- the walk ---------------------------------------------------------------------------

  /** What a translation grants: a physical page, and the rights both levels agree on. */
  datatype Mapping = Mapping(page: nat, writable: bool, user: bool)

  /** Entries that are both present, combined. */
  function Combine(pde: Word, pte: Word): Option<Mapping> {
    if Present(pde) && Present(pte) then
      Some(Mapping(Page(pte), Writable(pde) && Writable(pte), User(pde) && User(pte)))
    else None
  }

  /** The walk of virtual page q in the directory in page d.  A directory entry that points outside
      RAM maps nothing. */
  function Walk(mem: Memory, d: nat, q: nat): Option<Mapping>
    requires InRam(mem, d) && q < 0x10_0000
  {
    var pde := Peek(mem, d, q / ENTRIES);
    if !Present(pde) || !InRam(mem, Page(pde)) then None
    else Combine(pde, Peek(mem, Page(pde), q % ENTRIES))
  }

  // ---- ownership --------------------------------------------------------------------------

  /** Memory, the frame allocator, and the kernel's directory. */
  datatype Vm = Vm(mem: Memory, pmm: Pmm.Pmm, kernelDir: Word)

  /** Who owns what: the pages that are directories, and for every page that is a table the directory
      and the entry it belongs to. */
  datatype Owners = Owners(dirs: set<nat>, tables: map<nat, (nat, nat)>)

  const FIRST_PAGE := 2048   // the first page the allocator manages
  const RAM_PAGES := 16384   // every managed page lies below

  /** Page n was handed out by the allocator. */
  predicate Allocated(p: Pmm.Pmm, n: nat) {
    FIRST_PAGE <= n < FIRST_PAGE + p.total && n - FIRST_PAGE < |p.bits| && p.bits[n - FIRST_PAGE]
  }

  /** A table's user entries need a user directory entry. */
  predicate RightsOk(mem: Memory, t: nat, pde: Word)
    requires InRam(mem, t)
  {
    forall j: nat {:trigger Peek(mem, t, j)} :: j < ENTRIES && User(Peek(mem, t, j)) ==> User(pde)
  }

  /** Entry i of directory d, if present, points at a table of its own. */
  predicate EntryOk(v: Vm, o: Owners, d: nat, i: nat)
    requires InRam(v.mem, d) && i < ENTRIES
  {
    var pde := Peek(v.mem, d, i);
    var t := Page(pde);
    Present(pde) ==>
      && t in o.tables && o.tables[t] == (d, i) && t !in o.dirs
      && Allocated(v.pmm, t) && InRam(v.mem, t)
      && Writable(pde) && RightsOk(v.mem, t, pde)
  }

  predicate DirOk(v: Vm, o: Owners, d: nat) {
    && Allocated(v.pmm, d) && InRam(v.mem, d)
    && forall i: nat {:trigger EntryOk(v, o, d, i)} :: i < ENTRIES ==> EntryOk(v, o, d, i)
  }

  /** The invariant of the address spaces: no table is shared, and no table is a directory. */
  predicate Separated(v: Vm, o: Owners) {
    && Pmm.WellFormed(v.pmm) && v.pmm.total <= RAM_PAGES - FIRST_PAGE
    && |v.mem| >= RAM_PAGES * ENTRIES
    && (forall d {:trigger DirOk(v, o, d)} :: d in o.dirs ==> DirOk(v, o, d))
  }

  /** Virtual page x of directory e translates alike, with the same rights, in both states. */
  predicate SameWalk(v: Vm, v': Vm, e: nat, x: nat)
  {
    x < 0x10_0000 && InRam(v.mem, e) && InRam(v'.mem, e) && Walk(v'.mem, e, x) == Walk(v.mem, e, x)
  }

  // ---- the four writes everything is made of ----------------------------------------------

  /** A directory entry rewritten with the same table and no fewer rights. */
  function Widened(v: Vm, d: nat, i: nat, w: Word): Vm
    requires InRam(v.mem, d) && i < ENTRIES
  {
    v.(mem := Poke(v.mem, d, i, w))
  }

  predicate Widens(pde: Word, w: Word) {
    Present(pde) && Present(w) && Writable(w) && Page(w) == Page(pde) && (User(pde) ==> User(w))
  }

  lemma WidenedEntry(v: Vm, o: Owners, d: nat, i: nat, w: Word, e: nat, k: nat)
    requires Separated(v, o) && d in o.dirs && i < ENTRIES && DirOk(v, o, d) && Widens(Peek(v.mem, d, i), w)
    requires e in o.dirs && k < ENTRIES && DirOk(v, o, e)
    ensures EntryOk(Widened(v, d, i, w), o, e, k)
  {
    var v' := Widened(v, d, i, w);
    assert EntryOk(v, o, e, k);
    PeekPoke(v.mem, d, i, w, e, k);
    var t := Page(Peek(v'.mem, e, k));
    if Present(Peek(v'.mem, e, k)) {
      forall j: nat | j < ENTRIES ensures Peek(v'.mem, t, j) == Peek(v.mem, t, j) {
        PeekPoke(v.mem, d, i, w, t, j);
      }
    }
  }

  lemma WidenedSeparated(v: Vm, o: Owners, d: nat, i: nat, w: Word)
    requires Separated(v, o) && d in o.dirs && i < ENTRIES && DirOk(v, o, d) && Widens(Peek(v.mem, d, i), w)
    ensures Separated(Widened(v, d, i, w), o)
  {
    var v' := Widened(v, d, i, w);
    forall e | e in o.dirs ensures DirOk(v', o, e) {
      assert DirOk(v, o, e);
      forall k: nat | k < ENTRIES ensures EntryOk(v', o, e, k) {
        WidenedEntry(v, o, d, i, w, e, k);
      }
    }
  }

  /** Wider rights of a directory entry grant no page anything, since no table entry has more. */
  lemma WidenedWalk(v: Vm, o: Owners, d: nat, i: nat, w: Word, e: nat, x: nat)
    requires Separated(v, o) && d in o.dirs && i < ENTRIES && DirOk(v, o, d) && Widens(Peek(v.mem, d, i), w)
    requires e in o.dirs && x < 0x10_0000
    ensures SameWalk(v, Widened(v, d, i, w), e, x)
  {
    assert DirOk(v, o, e) && EntryOk(v, o, e, x / ENTRIES);
    PeekPoke(v.mem, d, i, w, e, x / ENTRIES);
    var t := Page(Peek(v.mem, e, x / ENTRIES));
    if Present(Peek(v.mem, e, x / ENTRIES)) {
      PeekPoke(v.mem, d, i, w, t, x % ENTRIES);
      assert User(Peek(v.mem, t, x % ENTRIES)) ==> User(Peek(v.mem, e, x / ENTRIES));
    }
  }

  /** A table entry written. */
  function Written(v: Vm, t: nat, j: nat, w: Word): Vm
    requires InRam(v.mem, t) && j < ENTRIES
  {
    v.(mem := Poke(v.mem, t, j, w))
  }

  lemma WrittenEntry(v: Vm, o: Owners, d: nat, i: nat, j: nat, w: Word, e: nat, k: nat)
    requires Separated(v, o) && d in o.dirs && i < ENTRIES && j < ENTRIES && DirOk(v, o, d)
    requires var pde := Peek(v.mem, d, i); Present(pde) && EntryOk(v, o, d, i) && (User(w) ==> User(pde))
    requires e in o.dirs && k < ENTRIES && DirOk(v, o, e)
    ensures EntryOk(Written(v, Page(Peek(v.mem, d, i)), j, w), o, e, k)
  {
    var t := Page(Peek(v.mem, d, i));
    var v' := Written(v, t, j, w);
    assert EntryOk(v, o, e, k);
    PeekPoke(v.mem, t, j, w, e, k);
    var u := Page(Peek(v.mem, e, k));
    if Present(Peek(v.mem, e, k)) {
      forall x: nat | x < ENTRIES && User(Peek(v'.mem, u, x)) ensures User(Peek(v'.mem, e, k)) {
        PeekPoke(v.mem, t, j, w, u, x);
      }
    }
  }

  lemma WrittenSeparated(v: Vm, o: Owners, d: nat, i: nat, j: nat, w: Word)
    requires Separated(v, o) && d in o.dirs && i < ENTRIES && j < ENTRIES && DirOk(v, o, d)
    requires var pde := Peek(v.mem, d, i); Present(pde) && EntryOk(v, o, d, i) && (User(w) ==> User(pde))
    ensures Separated(Written(v, Page(Peek(v.mem, d, i)), j, w), o)
  {
    var v' := Written(v, Page(Peek(v.mem, d, i)), j, w);
    forall e | e in o.dirs ensures DirOk(v', o, e) {
      assert DirOk(v, o, e);
      forall k: nat | k < ENTRIES ensures EntryOk(v', o, e, k) {
        WrittenEntry(v, o, d, i, j, w, e, k);
      }
    }
  }

  /** The write sets one translation and, since tables are not shared, no other. */
  lemma WrittenWalk(v: Vm, o: Owners, d: nat, i: nat, j: nat, w: Word, e: nat, x: nat)
    requires Separated(v, o) && d in o.dirs && i < ENTRIES && j < ENTRIES && DirOk(v, o, d)
    requires var pde := Peek(v.mem, d, i); Present(pde) && EntryOk(v, o, d, i)
    requires e in o.dirs && x < 0x10_0000
    ensures var pde := Peek(v.mem, d, i); var v' := Written(v, Page(pde), j, w);
      if e == d && x == i * ENTRIES + j then InRam(v'.mem, d) && Walk(v'.mem, d, x) == Combine(pde, w)
      else SameWalk(v, v', e, x)
  {
    var t := Page(Peek(v.mem, d, i));
    assert DirOk(v, o, e) && EntryOk(v, o, e, x / ENTRIES);
    PeekPoke(v.mem, t, j, w, e, x / ENTRIES);
    var u := Page(Peek(v.mem, e, x / ENTRIES));
    if Present(Peek(v.mem, e, x / ENTRIES)) {
      PeekPoke(v.mem, t, j, w, u, x % ENTRIES);
    }
  }

  /** A frame from the allocator, filled with t, as yet unknown to any directory. */
  function Filled(v: Vm, p: Pmm.Pmm, n: nat, t: seq<Word>): Vm
    requires InRam(v.mem, n) && |t| == ENTRIES
  {
    v.(mem := SetPage(v.mem, n, t), pmm := p)
  }

  /** Page n is the allocator's next frame. */
  predicate Next(v: Vm, p: Pmm.Pmm, n: nat) {
    && |v.pmm.bits| == Pmm.MAX_FRAMES
    && var (p', a) := Pmm.Alloc(v.pmm); a != 0 && p == p' && n == Page(a)
  }

  lemma NextIsFresh(v: Vm, o: Owners, p: Pmm.Pmm, n: nat)
    requires Separated(v, o) && Next(v, p, n)
    ensures Pmm.WellFormed(p) && p.total == v.pmm.total && !Allocated(v.pmm, n) && Allocated(p, n) && InRam(v.mem, n)
    ensures n < RAM_PAGES && Pmm.Alloc(v.pmm).1 == n * PAGE_SIZE
    ensures forall m :: Allocated(v.pmm, m) ==> Allocated(p, m)
    ensures n !in o.dirs
  {
    Pmm.AllocGivesLowest(v.pmm);
    var a := Pmm.Alloc(v.pmm).1;
    assert a == (FIRST_PAGE + Pmm.FrameOf(a)) * PAGE_SIZE;
    Pages(a, FIRST_PAGE + Pmm.FrameOf(a), 0);
    assert n in o.dirs ==> DirOk(v, o, n);
  }

  lemma FilledEntry(v: Vm, o: Owners, p: Pmm.Pmm, n: nat, t: seq<Word>, e: nat, k: nat)
    requires Separated(v, o) && Next(v, p, n) && InRam(v.mem, n) && |t| == ENTRIES
    requires e in o.dirs && k < ENTRIES
    ensures DirOk(v, o, e) && EntryOk(Filled(v, p, n, t), o, e, k)
    ensures Peek(Filled(v, p, n, t).mem, e, k) == Peek(v.mem, e, k)
    ensures Present(Peek(v.mem, e, k)) ==> Page(Peek(v.mem, e, k)) != n
  {
    NextIsFresh(v, o, p, n);
    assert DirOk(v, o, e) && EntryOk(v, o, e, k);
    PeekSetPage(v.mem, n, t, e, k);
    var u := Page(Peek(v.mem, e, k));
    if Present(Peek(v.mem, e, k)) {
      forall x: nat | x < ENTRIES ensures Peek(SetPage(v.mem, n, t), u, x) == Peek(v.mem, u, x) {
        PeekSetPage(v.mem, n, t, u, x);
      }
    }
  }

  lemma FilledSeparated(v: Vm, o: Owners, p: Pmm.Pmm, n: nat, t: seq<Word>)
    requires Separated(v, o) && Next(v, p, n) && InRam(v.mem, n) && |t| == ENTRIES
    ensures Separated(Filled(v, p, n, t), o)
  {
    NextIsFresh(v, o, p, n);
    var v' := Filled(v, p, n, t);
    forall e | e in o.dirs ensures DirOk(v', o, e) {
      assert DirOk(v, o, e);
      forall k: nat | k < ENTRIES ensures EntryOk(v', o, e, k) {
        FilledEntry(v, o, p, n, t, e, k);
      }
    }
  }

  lemma FilledWalk(v: Vm, o: Owners, p: Pmm.Pmm, n: nat, t: seq<Word>, e: nat, x: nat)
    requires Separated(v, o) && Next(v, p, n) && InRam(v.mem, n) && |t| == ENTRIES
    requires e in o.dirs && x < 0x10_0000
    ensures SameWalk(v, Filled(v, p, n, t), e, x)
  {
    FilledEntry(v, o, p, n, t, e, x / ENTRIES);
    assert EntryOk(v, o, e, x / ENTRIES);
    var u := Page(Peek(v.mem, e, x / ENTRIES));
    if Present(Peek(v.mem, e, x / ENTRIES)) {
      PeekSetPage(v.mem, n, t, u, x % ENTRIES);
    }
  }

  /** A frame nobody points at becomes the table of an absent directory entry. */
  function Installed(v: Vm, d: nat, i: nat, w: Word): Vm
    requires InRam(v.mem, d) && i < ENTRIES
  {
    v.(mem := Poke(v.mem, d, i, w))
  }

  predicate Installable(v: Vm, o: Owners, d: nat, i: nat, w: Word) {
    && d in o.dirs && i < ENTRIES && DirOk(v, o, d) && !Present(Peek(v.mem, d, i))
    && Present(w) && Writable(w) && Page(w) !in o.dirs
    && Allocated(v.pmm, Page(w)) && InRam(v.mem, Page(w)) && RightsOk(v.mem, Page(w), w)
    && forall e, k: nat {:trigger Peek(v.mem, e, k)} ::
         e in o.dirs && DirOk(v, o, e) && k < ENTRIES && Present(Peek(v.mem, e, k)) ==> Page(Peek(v.mem, e, k)) != Page(w)
  }

  lemma InstalledEntry(v: Vm, o: Owners, d: nat, i: nat, w: Word, e: nat, k: nat)
    requires Separated(v, o) && Installable(v, o, d, i, w) && e in o.dirs && k < ENTRIES && DirOk(v, o, e)
    ensures EntryOk(Installed(v, d, i, w), o.(tables := o.tables[Page(w) := (d, i)]), e, k)
  {
    var v' := Installed(v, d, i, w);
    assert EntryOk(v, o, e, k);
    PeekPoke(v.mem, d, i, w, e, k);
    var u := Page(Peek(v'.mem, e, k));
    if Present(Peek(v'.mem, e, k)) {
      assert InRam(v.mem, u);
      forall x: nat | x < ENTRIES ensures Peek(v'.mem, u, x) == Peek(v.mem, u, x) {
        PeekPoke(v.mem, d, i, w, u, x);
      }
    }
  }

  lemma InstalledSeparated(v: Vm, o: Owners, d: nat, i: nat, w: Word)
    requires Separated(v, o) && Installable(v, o, d, i, w)
    ensures Separated(Installed(v, d, i, w), o.(tables := o.tables[Page(w) := (d, i)]))
  {
    var v', o' := Installed(v, d, i, w), o.(tables := o.tables[Page(w) := (d, i)]);
    forall e | e in o'.dirs ensures DirOk(v', o', e) {
      assert DirOk(v, o, e);
      forall k: nat | k < ENTRIES ensures EntryOk(v', o', e, k) {
        InstalledEntry(v, o, d, i, w, e, k);
      }
    }
  }

  /** The pages of that entry now translate through the new table; no other page is affected. */
  lemma InstalledWalk(v: Vm, o: Owners, d: nat, i: nat, w: Word, e: nat, x: nat)
    requires Separated(v, o) && Installable(v, o, d, i, w) && e in o.dirs && x < 0x10_0000
    ensures var v' := Installed(v, d, i, w);
      if e == d && x / ENTRIES == i then
        InRam(v'.mem, d) && Walk(v.mem, d, x) == None && Walk(v'.mem, d, x) == Combine(w, Peek(v.mem, Page(w), x % ENTRIES))
      else SameWalk(v, v', e, x)
  {
    assert DirOk(v, o, e) && EntryOk(v, o, e, x / ENTRIES);
    PeekPoke(v.mem, d, i, w, e, x / ENTRIES);
    var u := if e == d && x / ENTRIES == i then Page(w) else Page(Peek(v.mem, e, x / ENTRIES));
    if InRam(v.mem, u) {
      PeekPoke(v.mem, d, i, w, u, x % ENTRIES);
    }
  }
}
