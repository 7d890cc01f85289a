/** The address space of a new user process byte by byte: where its code, its stack and everything else are. */
module UserImages {
  import opened Basics
  import opened Paging
  import opened AddressSpaces
  import opened UserSpaces
  import opened UserCopy
  import IdentityMap

  /** The code covers exactly the pages its bytes lie in, so nothing is mapped past its last page; a size so
      large that rounding it up wraps around maps nothing. */
  lemma CodePagesIff(size: Word, j: nat)
    ensures size + 4095 < 0x1_0000_0000 ==> (j < CodePages(size) <==> j * 4096 < size)
    ensures size + 4095 < 0x1_0000_0000 ==> size <= CodePages(size) * 4096 < size + 4096
    ensures size + 4095 >= 0x1_0000_0000 ==> CodePages(size) == 0
  {
  }

  /** Byte b past the start of the page base lies in. */
  function ByteOver(base: Word, b: nat): Word { (base / 4096 * 4096 + b) % 0x1_0000_0000 }

  lemma ByteOverPage(base: Word, b: nat)
    ensures ByteOver(base, b) / 4096 == (base / 4096 + b / 4096) % 0x10_0000 && ByteOver(base, b) % 4096 == b % 4096
  {
    var q, r := base / 4096 + b / 4096, b % 4096;
    var n, m := q / 0x10_0000, q % 0x10_0000;
    assert base / 4096 * 4096 + b == n * TWO_TO_THE_32 + (m * 4096 + r);
    assert m * 4096 + r < TWO_TO_THE_32;
    Remainder(base / 4096 * 4096 + b, n, m * 4096 + r);
    Pages(m * 4096 + r, m, r);
  }

  /** The page of byte b of the code is b / 4096 pages into it. */
  lemma CodeIndexOf(entry: Word, b: Word)
    ensures ByteOver(entry, b) / 4096 < 0x10_0000 && CodeIndex(entry, ByteOver(entry, b) / 4096) == b / 4096
  {
    ByteOverPage(entry, b);
    PagesApart(entry / 4096, ByteOver(entry, b) / 4096, b / 4096);
  }

  /** Page x is one the process has its stack or the thunk in. */
  predicate Special(x: nat) { 0x7FFE0 <= x < 0x7FFF0 || x == 0x106 }

  /** Once proc_create_user has made its mappings, the whole image is at its addresses: byte b of the code is
      in the page that holds byte b of the image, for users to read and write. */
  lemma ImageMapped(v: Vm, r: Space, o: Owners, o': Owners, frames: seq<nat>, codePhys: Word, codeSize: Word, entry: Word, b: Word)
    requires SpaceMade(v, r, o, o', frames, codePhys, codeSize, entry)
    requires codeSize + 4095 < 0x1_0000_0000 && b < codeSize
    ensures var virt, phys := (entry / 4096 * 4096 + b) % 0x1_0000_0000, (codePhys / 4096 * 4096 + b) % 0x1_0000_0000;
      && virt % 4096 == phys % 4096
      && (!(0x7FFE0 <= virt / 4096 < 0x7FFF0) ==>
            Walk(r.vm.mem, r.dir / 4096, virt / 4096) == Some(Mapping(phys / 4096, true, true)))
  {
    ByteOverPage(entry, b);
    ByteOverPage(codePhys, b);
    CodeIndexOf(entry, b);
    CodePagesIff(codeSize, b / 4096);
    assert Walk(r.vm.mem, Page(r.dir), ByteOver(entry, b) / 4096) == Expected(v, codePhys, codeSize, entry, frames, ByteOver(entry, b) / 4096);
  }

  /** Every page of the finished address space over the kernel's identity map, without a helper's name: sixteen
      stack pages with frames of their own, the thunk page to be read only, the pages of the code and no more,
      the first 128 MB at their own addresses, and nothing else. */
  lemma SpaceShown(mem: Memory, k: nat, d: nat, codePhys: Word, codeSize: Word, entry: Word, frames: seq<nat>, x: nat)
    requires SpacesShow(mem, k, d, codePhys, codeSize, entry, frames) && x < 0x10_0000
    requires codeSize + 4095 < 0x1_0000_0000
    ensures var j := (x + 0x10_0000 - entry / 4096) % 0x10_0000;
      |frames| == 16
      && Walk(mem, d, x) ==
        if x == 0x106 then Some(Mapping(0x106, false, true))
        else if 0x7FFE0 <= x < 0x7FFF0 then Some(Mapping(frames[x - 0x7FFE0], true, true))
        else if j * 4096 < codeSize then Some(Mapping((codePhys / 4096 + j) % 0x10_0000, true, true))
        else if x < 0x8000 then Some(Mapping(x, true, true)) else None
    ensures Walk(mem, k, x) == if x < 0x8000 then Some(Mapping(x, true, false)) else None
  {
    CodePagesIff(codeSize, (x + 0x10_0000 - entry / 4096) % 0x10_0000);
    assert Walk(mem, d, x) == Shown(codePhys, codeSize, entry, frames, x);
  }

  /** What user code reads at byte b of its image is what RAM holds at byte b of the image, and copy_from_user
      copies it, outside its stack and the thunk page. */
  lemma ImageReads(mem: Memory, k: nat, d: nat, codePhys: Word, codeSize: Word, entry: Word, frames: seq<nat>, b: Word)
    requires SpacesShow(mem, k, d, codePhys, codeSize, entry, frames)
    requires codeSize + 4095 < 0x1_0000_0000 && b < codeSize
    ensures var virt, phys := (entry / 4096 * 4096 + b) % 0x1_0000_0000, (codePhys / 4096 * 4096 + b) % 0x1_0000_0000;
      virt < 0x8000_0000 && virt / 4096 != 0x106 && !(0x7FFE0 <= virt / 4096 < 0x7FFF0) ==>
        Read(mem, d, virt) == Some(AtPhysical(mem, phys))
  {
    var virt, phys := ByteOver(entry, b), ByteOver(codePhys, b);
    ByteOverPage(entry, b);
    ByteOverPage(codePhys, b);
    CodeIndexOf(entry, b);
    SpaceShown(mem, k, d, codePhys, codeSize, entry, frames, virt / 4096);
    assert phys == phys / 4096 * 4096 + phys % 4096;
  }

  /** The stack pointer a process starts with, four bytes below the top of its stack, is in its last stack page;
      the stack reads as its frames do. */
  lemma StackReads(mem: Memory, k: nat, d: nat, codePhys: Word, codeSize: Word, entry: Word, frames: seq<nat>, a: nat)
    requires SpacesShow(mem, k, d, codePhys, codeSize, entry, frames) && a < 0x1_0000
    ensures |frames| == 16 && Read(mem, d, 0x7FFE_0000 + a) == Some(AtPhysical(mem, frames[a / 4096] * 4096 + a % 4096))
  {
    var addr := 0x7FFE_0000 + a;
    Pages(addr, 0x7FFE0 + a / 4096, a % 4096);
    assert Walk(mem, d, addr / 4096) == Shown(codePhys, codeSize, entry, frames, addr / 4096);
  }
}
