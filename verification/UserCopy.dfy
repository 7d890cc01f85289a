/** Checked reads of user memory by system calls, through the page tables of the active directory. */
module UserCopy {
  import opened Basics
  import opened Paging
  import opened AddressSpaces

  const USER_LIMIT: Word := 0x8000_0000

  /** Every present entry of the directory in page d points at a table in RAM. */
  predicate Tabled(mem: Memory, d: nat) {
    && InRam(mem, d)
    && forall i: nat {:trigger Peek(mem, d, i)} :: i < ENTRIES && Present(Peek(mem, d, i)) ==> InRam(mem, Page(Peek(mem, d, i)))
  }

  /** is_user_ptr */
  predicate IsUserPtr(mem: Memory, cr3: Word, addr: Word)
    requires Tabled(mem, Page(cr3))
  {
    if addr >= USER_LIMIT then false else
      var pde := Peek(mem, Page(cr3), addr / 0x40_0000);
      if !Present(pde) || !User(pde) then false else
        var pte := Peek(mem, Page(pde), (addr / PAGE_SIZE) % ENTRIES);
        Present(pte) && User(pte)
  }

  /** The pointer check is the hardware's walk: it accepts exactly the low addresses that translate for
      user code. */
  lemma AcceptedIff(mem: Memory, cr3: Word, addr: Word)
    requires Tabled(mem, Page(cr3))
    ensures IsUserPtr(mem, cr3, addr) <==>
      addr < 0x8000_0000 && Walk(mem, Page(cr3), Page(addr)).Some? && Walk(mem, Page(cr3), Page(addr)).value.user
  {
    assert Page(addr) / ENTRIES == addr / 0x40_0000;
    if addr < USER_LIMIT {
      assert Present(Peek(mem, Page(cr3), Page(addr) / ENTRIES)) ==> InRam(mem, Page(Peek(mem, Page(cr3), Page(addr) / ENTRIES)));
    }
  }

  /** Directories that own their tables can be walked. */
  lemma SeparatedTabled(v: Vm, o: Owners, d: nat)
    requires Separated(v, o) && d in o.dirs
    ensures Tabled(v.mem, d)
  {
    assert DirOk(v, o, d);
    forall i: nat | i < ENTRIES && Present(Peek(v.mem, d, i)) ensures InRam(v.mem, Page(Peek(v.mem, d, i))) {
      assert EntryOk(v, o, d, i);
    }
  }

  /** A mapping decides the check for the addresses of its own page, and for no others of any
      directory. */
  lemma AcceptedAfterMap(v: Vm, o: Owners, d: nat, virt: Word, phys: Word, flags: Word, cr3: Word, addr: Word)
    requires Separated(v, o) && d in o.dirs && Page(cr3) in o.dirs && IsFlags(flags)
    requires Roomy(v) && InRam(v.mem, d) && CanMap(v, d, virt)
    ensures var v' := MapPage(v, d, virt, phys, flags);
      && Tabled(v.mem, Page(cr3)) && Tabled(v'.mem, Page(cr3))
      && (IsUserPtr(v'.mem, cr3, addr) <==>
            if Page(cr3) == d && Page(addr) == Page(virt) then addr < 0x8000_0000 && User(flags)
            else IsUserPtr(v.mem, cr3, addr))
  {
    var v' := MapPage(v, d, virt, phys, flags);
    MapIsolation(v, o, d, virt, phys, flags);
    SeparatedTabled(v, o, Page(cr3));
    SeparatedTabled(v', MapOwners(v, o, d, virt), Page(cr3));
    AcceptedIff(v.mem, cr3, addr);
    AcceptedIff(v'.mem, cr3, addr);
    if !(Page(cr3) == d && Page(addr) == Page(virt)) {
      assert SameWalk(v, v', Page(cr3), Page(addr));
    }
  }

  lemma RejectedAfterUnmap(v: Vm, o: Owners, d: nat, virt: Word, cr3: Word, addr: Word)
    requires Separated(v, o) && d in o.dirs && Page(cr3) in o.dirs
    ensures Roomy(v) && InRam(v.mem, d)
    ensures var v' := UnmapPage(v, d, virt);
      && Tabled(v.mem, Page(cr3)) && Tabled(v'.mem, Page(cr3))
      && (IsUserPtr(v'.mem, cr3, addr) <==>
            !(Page(cr3) == d && Page(addr) == Page(virt)) && IsUserPtr(v.mem, cr3, addr))
  {
    UnmapIsolation(v, o, d, virt);
    var v' := UnmapPage(v, d, virt);
    SeparatedTabled(v, o, Page(cr3));
    SeparatedTabled(v', o, Page(cr3));
    AcceptedIff(v.mem, cr3, addr);
    AcceptedIff(v'.mem, cr3, addr);
    if !(Page(cr3) == d && Page(addr) == Page(virt)) {
      assert SameWalk(v, v', Page(cr3), Page(addr));
    }
  }

  // ---- the copy -----------------------------------------------------------------------------

  /** Byte k of a little-endian word. */
  function ByteOf(w: Word, k: nat): Byte
    requires k < 4
  {
    if k == 0 then w % 256 else if k == 1 then w / 0x100 % 256 else if k == 2 then w / 0x1_0000 % 256 else w / 0x100_0000 % 256
  }

  /** The byte at a physical address; the bus reads 0xFF where there is no RAM. */
  function PhysicalByte(mem: Memory, page: nat, offset: nat): Byte
    requires offset < PAGE_SIZE
  {
    var w := page * ENTRIES + offset / 4;
    if w < |mem| then ByteOf(mem[w], offset % 4) else 0xFF
  }

  /** The byte user code would read at a virtual address it can read. */
  function UserByte(mem: Memory, cr3: Word, addr: Word): Byte
    requires Tabled(mem, Page(cr3)) && IsUserPtr(mem, cr3, addr)
  {
    AcceptedIff(mem, cr3, addr);
    PhysicalByte(mem, Walk(mem, Page(cr3), Page(addr)).value.page, addr % PAGE_SIZE)
  }

  /** The address of byte i of a buffer; pointers wrap around. */
  function ByteAddress(src: Word, i: nat): Word { (src + i) % TWO_TO_THE_32 }

  // ---- what a read by user code gives -------------------------------------------------------

  /** What user code below 2 GB reads at a virtual address through the directory in page d: nothing where it
      may not read, and otherwise the byte of RAM the translation leads to, or 0xFF where there is no RAM. */
  function Read(mem: Memory, d: nat, addr: Word): Option<int>
    requires InRam(mem, d)
  {
    var m := Walk(mem, d, addr / 4096);
    if addr >= 0x8000_0000 || m.None? || !m.value.user then None
    else Some(AtPhysical(mem, m.value.page * 4096 + addr % 4096))
  }

  /** Byte a of RAM, where words lie with their low byte first. */
  function AtPhysical(mem: Memory, a: nat): int {
    if a / 4 >= |mem| then 0xFF
    else
      var w := mem[a / 4];
      if a % 4 == 0 then w % 0x100 else if a % 4 == 1 then w / 0x100 % 0x100
      else if a % 4 == 2 then w / 0x1_0000 % 0x100 else w / 0x100_0000 % 0x100
  }

  function ReadNth(mem: Memory, d: nat, src: Word, i: nat): Option<int>
    requires InRam(mem, d)
  {
    Read(mem, d, (src + i) % 0x1_0000_0000)
  }

  lemma PhysicalParts(page: nat, offset: nat)
    requires offset < 4096
    ensures (page * 4096 + offset) / 4 == page * 1024 + offset / 4 && (page * 4096 + offset) % 4 == offset % 4
  {
  }

  /** The check accepts an address exactly when a read there gives something, and that is the byte copied. */
  lemma ReadIs(mem: Memory, cr3: Word, addr: Word)
    requires Tabled(mem, Page(cr3))
    ensures IsUserPtr(mem, cr3, addr) <==> Read(mem, Page(cr3), addr).Some?
    ensures IsUserPtr(mem, cr3, addr) ==> Read(mem, Page(cr3), addr) == Some(UserByte(mem, cr3, addr))
  {
    AcceptedIff(mem, cr3, addr);
    if IsUserPtr(mem, cr3, addr) {
      PhysicalParts(Walk(mem, Page(cr3), Page(addr)).value.page, addr % PAGE_SIZE);
    }
  }

  /** The four bytes at an aligned address can be read all or none, and make up the word there, the lowest
      address least significant. */
  lemma WordRead(mem: Memory, d: nat, addr: Word, addr1: Word, addr2: Word, addr3: Word)
    requires InRam(mem, d) && addr % 4 == 0 && addr1 == addr + 1 && addr2 == addr + 2 && addr3 == addr + 3
    requires Read(mem, d, addr).Some?
    ensures Read(mem, d, addr1).Some? && Read(mem, d, addr2).Some? && Read(mem, d, addr3).Some?
    ensures var p := Walk(mem, d, addr / 4096).value.page * 1024 + addr % 4096 / 4;
      p < |mem| ==> Read(mem, d, addr).value + 0x100 * Read(mem, d, addr1).value + 0x1_0000 * Read(mem, d, addr2).value
                    + 0x100_0000 * Read(mem, d, addr3).value == mem[p]
  {
    ByteOfWord(mem, d, addr, addr, 0);
    ByteOfWord(mem, d, addr, addr1, 1);
    ByteOfWord(mem, d, addr, addr2, 2);
    ByteOfWord(mem, d, addr, addr3, 3);
    var p := Walk(mem, d, addr / 4096).value.page * 1024 + addr % 4096 / 4;
    if p < |mem| {
      WordBytes(mem[p]);
    }
  }

  lemma ByteOfWord(mem: Memory, d: nat, addr: Word, addr': Word, k: nat)
    requires InRam(mem, d) && addr % 4 == 0 && k < 4 && addr' == addr + k && Read(mem, d, addr).Some?
    ensures var p := Walk(mem, d, addr / 4096).value.page * 1024 + addr % 4096 / 4;
      Read(mem, d, addr') == Some(if p < |mem| then ByteOf(mem[p], k) else 0xFF)
  {
    SamePage(addr, k);
    PhysicalParts(Walk(mem, d, addr / 4096).value.page, addr % 4096 + k);
  }

  lemma SamePage(addr: Word, k: nat)
    requires addr % 4 == 0 && k < 4 && addr + k < TWO_TO_THE_32
    ensures (addr + k) / 4096 == addr / 4096 && (addr + k) % 4096 == addr % 4096 + k && (addr + k >= 0x8000_0000 <==> addr >= 0x8000_0000)
    ensures (addr % 4096 + k) / 4 == addr % 4096 / 4 && (addr % 4096 + k) % 4 == k && addr % 4096 + k < 4096
  {
    var q, r := addr / 4096, addr % 4096;
    assert addr == 4096 * q + r && r % 4 == 0;
    Pages(addr + k, q, r + k);
  }

  lemma WordBytes(w: Word)
    ensures w == w % 0x100 + 0x100 * (w / 0x100 % 0x100) + 0x1_0000 * (w / 0x1_0000 % 0x100) + 0x100_0000 * (w / 0x100_0000 % 0x100)
  {
    assert w / 0x1_0000 == w / 0x100 / 0x100 && w / 0x100_0000 == w / 0x100 / 0x100 / 0x100;
  }

  /** After a mapping for users a read from its page gives what RAM holds in the frame it was given; a read
      anywhere else leads where it led before. */
  lemma ReadAfterMap(v: Vm, o: Owners, d: nat, virt: Word, phys: Word, flags: Word, addr: Word)
    requires Separated(v, o) && d in o.dirs && IsFlags(flags) && flags % 8 >= 4
    requires Roomy(v) && InRam(v.mem, d) && CanMap(v, d, virt)
    ensures var v' := MapPage(v, d, virt, phys, flags);
      && InRam(v'.mem, d)
      && (addr < 0x8000_0000 && addr / 4096 == virt / 4096 ==>
            Read(v'.mem, d, addr) == Some(AtPhysical(v'.mem, phys / 4096 * 4096 + addr % 4096)))
      && (addr / 4096 != virt / 4096 ==>
            Walk(v'.mem, d, addr / 4096) == Walk(v.mem, d, addr / 4096)
            && (Read(v'.mem, d, addr).Some? <==> Read(v.mem, d, addr).Some?))
  {
    MapIsolation(v, o, d, virt, phys, flags);
    if addr / 4096 != virt / 4096 {
      assert SameWalk(v, MapPage(v, d, virt, phys, flags), d, addr / 4096);
    }
  }

  lemma ReadNthIs(mem: Memory, cr3: Word, src: Word, i: nat)
    requires Tabled(mem, Page(cr3))
    ensures IsUserPtr(mem, cr3, ByteAddress(src, i)) <==> ReadNth(mem, Page(cr3), src, i).Some?
    ensures IsUserPtr(mem, cr3, ByteAddress(src, i)) ==>
      ReadNth(mem, Page(cr3), src, i) == Some(UserByte(mem, cr3, ByteAddress(src, i)))
  {
    ReadIs(mem, cr3, ByteAddress(src, i));
  }

  // ---- copy_from_user -----------------------------------------------------------------------

  /** The number of leading bytes, from byte i on, that can be read. */
  function AcceptedFrom(mem: Memory, d: nat, src: Word, i: nat, len: nat): (n: nat)
    requires InRam(mem, d) && i <= len
    ensures i <= n <= len
    ensures forall k :: i <= k < n ==> ReadNth(mem, d, src, k).Some?
    ensures n < len ==> ReadNth(mem, d, src, n).None?
    decreases len - i
  {
    if i == len || ReadNth(mem, d, src, i).None? then i else AcceptedFrom(mem, d, src, i + 1, len)
  }

  /** copy_from_user: 0 exactly when every byte can be read; the bytes before the first that cannot are those
      the user would read, whatever follows them in the destination stays. */
  method CopyFromUser(ram: array<Word>, cr3: Word, dest: array<Byte>, src: Word, len: nat) returns (r: int)
    requires Tabled(ram[..], Page(cr3)) && len <= dest.Length
    modifies dest
    ensures ram[..] == old(ram[..])
    ensures r == if forall k :: 0 <= k < len ==> ReadNth(ram[..], Page(cr3), src, k).Some? then 0 else -1
    ensures forall k :: 0 <= k < dest.Length ==>
      if k < AcceptedFrom(ram[..], Page(cr3), src, 0, len) then ReadNth(ram[..], Page(cr3), src, k) == Some(dest[k])
      else dest[k] == old(dest[k])
  {
    ghost var mem, d := ram[..], Page(cr3);
    for i := 0 to len
      invariant ram[..] == mem
      invariant forall k :: 0 <= k < i ==> ReadNth(mem, d, src, k) == Some(dest[k])
      invariant forall k :: i <= k < dest.Length ==> dest[k] == old(dest[k])
    {
      var addr := ByteAddress(src, i);
      ReadNthIs(mem, cr3, src, i);
      if !IsUserPtr(ram[..], cr3, addr) {
        return -1;
      }
      dest[i] := UserByte(ram[..], cr3, addr);
    }
    r := 0;
  }
}
