/**
 The stack frames of the timer interrupt: what the processor and the stub push, what the
 restore sequence pops, and the two frames a new thread starts from.  Memory is a sequence of
 32-bit words; word w has the byte address 4 * w.
 */
module Frames {
  import opened Basics

  datatype Regs = Regs(
    eax: Word, ecx: Word, edx: Word, ebx: Word, esp: Word, ebp: Word, esi: Word, edi: Word,
    ds: Selector, es: Selector, fs: Selector, gs: Selector,
    eip: Word, cs: Selector, eflags: Word, ss: Selector)

  type Memory = seq<Word>

  const KERNEL_CODE: Selector := 0x08
  const KERNEL_DATA: Selector := 0x10
  const USER_CODE: Selector := 0x1B
  const USER_DATA: Selector := 0x23
  const TIMER_VECTOR: Word := 0x20
  const INTERRUPTS_ON: Word := 0x202

  /** Offset, in words, of the saved code selector within a frame. */
  const CS_OFFSET := 15

  predicate UserMode(cs: Selector) { cs % 4 == 3 }

  function FrameSize(user: bool): nat { if user then 19 else 17 }

  /** Word k of a frame, lowest address first.  The processor pushes words 14 up (SDM 3A, section
      6.12.1: five of them from Ring 3, three from Ring 0); the stub pushes the error code, the
      vector, the PUSHA block with the stack pointer PUSHA found, and the segment registers. */
  function FrameWord(r: Regs, vector: Word, espAtPusha: Word, k: nat): Word {
    match k
    case 0 => r.ds
    case 1 => r.es
    case 2 => r.fs
    case 3 => r.gs
    case 4 => r.edi
    case 5 => r.esi
    case 6 => r.ebp
    case 7 => espAtPusha
    case 8 => r.ebx
    case 9 => r.edx
    case 10 => r.ecx
    case 11 => r.eax
    case 12 => vector
    case 13 => 0
    case 14 => r.eip
    case 15 => r.cs
    case 16 => r.eflags
    case 17 => r.esp
    case _ => r.ss
  }

  /** The words of a frame for registers r. */
  function FrameWords(r: Regs, vector: Word, espAtPusha: Word): (f: seq<Word>)
    ensures |f| == FrameSize(UserMode(r.cs))
  {
    seq(FrameSize(UserMode(r.cs)), k requires 0 <= k => FrameWord(r, vector, espAtPusha, k))
  }

  /** The frame of an interrupt whose first push lands just below word top. */
  function SavedFrame(r: Regs, top: nat): (f: seq<Word>)
    requires 19 <= top && 4 * top < TWO_TO_THE_32
    ensures |f| == FrameSize(UserMode(r.cs))
  {
    FrameWords(r, TIMER_VECTOR, 4 * (top - FrameSize(UserMode(r.cs)) + 12))
  }

  function Splice(mem: Memory, a: nat, f: seq<Word>): (r: Memory)
    requires a + |f| <= |mem|
    ensures |r| == |mem|
    ensures forall w :: 0 <= w < |mem| ==> r[w] == if a <= w < a + |f| then f[w - a] else mem[w]
  {
    seq(|mem|, w requires 0 <= w < |mem| => if a <= w < a + |f| then f[w - a] else mem[w])
  }

  function SavedCs(mem: Memory, a: nat): Selector
    requires a + 17 <= |mem|
  {
    mem[a + CS_OFFSET] % 0x1_0000
  }

  predicate HoldsFrame(mem: Memory, a: nat) {
    a + 17 <= |mem| && 4 * |mem| <= TWO_TO_THE_32 && (UserMode(SavedCs(mem, a)) ==> a + 19 <= |mem|)
  }

  /** The word above the frame at word a. */
  function FrameEnd(mem: Memory, a: nat): nat
    requires HoldsFrame(mem, a)
  {
    a + FrameSize(UserMode(SavedCs(mem, a)))
  }

  /**
   The restore sequence run on frame f: four segment pops, POPA (which discards its stack
   pointer), eight bytes dropped, and IRET.  An IRET to Ring 0 leaves SS alone and the stack
   pointer at the end of the frame; one to Ring 3 pops both.
   */
  function Load(f: seq<Word>, end: Word, ss: Selector): Regs
    requires |f| >= 17 && (UserMode(f[CS_OFFSET] % 0x1_0000) ==> |f| == 19)
  {
    var cs := f[CS_OFFSET] % 0x1_0000;
    Regs(
      f[11], f[10], f[9], f[8], if UserMode(cs) then f[17] else end, f[6], f[5], f[4],
      f[0] % 0x1_0000, f[1] % 0x1_0000, f[2] % 0x1_0000, f[3] % 0x1_0000,
      f[14], cs, f[16], if UserMode(cs) then f[18] % 0x1_0000 else ss)
  }

  /** Restoring with the stack pointer at word a of memory. */
  function Restore(mem: Memory, a: nat, ss: Selector): (r: Regs)
    requires HoldsFrame(mem, a)
  {
    Load(mem[a..FrameEnd(mem, a)], (4 * FrameEnd(mem, a)) % TWO_TO_THE_32, ss)
  }

  lemma SpliceHolds(mem: Memory, a: nat, f: seq<Word>)
    requires 17 <= |f| && a + |f| <= |mem| && 4 * |mem| <= TWO_TO_THE_32
    requires |f| == FrameSize(UserMode(f[CS_OFFSET] % 0x1_0000))
    ensures var m := Splice(mem, a, f);
      HoldsFrame(m, a) && FrameEnd(m, a) == a + |f| && m[a..a + |f|] == f
      && SavedCs(m, a) == f[CS_OFFSET] % 0x1_0000
  {
    assert Splice(mem, a, f)[a + CS_OFFSET] == f[CS_OFFSET];
  }

  /** Loading what was saved gives every register back, in Ring 0 and in Ring 3, whatever the
      vector and whatever the stack pointer word, which POPA discards. */
  lemma LoadSaved(r: Regs, vector: Word, espAtPusha: Word, end: Word, ss: Selector)
    requires !UserMode(r.cs) ==> r.esp == end && r.ss == ss
    ensures var f := FrameWords(r, vector, espAtPusha);
      f[CS_OFFSET] == r.cs && Load(f, end, ss) == r
  {
  }

  /** The words the timer interrupt leaves, lowest address first: segment registers, the PUSHA block, the
      vector 0x20, the error code 0, and what the processor pushed. */
  lemma SavedFrameWords(r: Regs, top: nat)
    requires 19 <= top && 4 * top < TWO_TO_THE_32
    ensures var f := SavedFrame(r, top);
      && |f| == (if r.cs % 4 == 3 then 19 else 17)
      && f[0] == r.ds && f[1] == r.es && f[2] == r.fs && f[3] == r.gs
      && f[4] == r.edi && f[5] == r.esi && f[6] == r.ebp && f[7] == 4 * (top - |f| + 12)
      && f[8] == r.ebx && f[9] == r.edx && f[10] == r.ecx && f[11] == r.eax
      && f[12] == 0x20 && f[13] == 0 && f[14] == r.eip && f[15] == r.cs && f[16] == r.eflags
      && (r.cs % 4 == 3 ==> f[17] == r.esp && f[18] == r.ss)
  {
  }

  /** A restore reads nothing but its frame. */
  lemma RestoreReadsFrame(mem: Memory, mem': Memory, a: nat, ss: Selector)
    requires HoldsFrame(mem, a) && |mem'| == |mem|
    requires forall w :: a <= w < FrameEnd(mem, a) ==> mem'[w] == mem[w]
    ensures HoldsFrame(mem', a) && Restore(mem', a, ss) == Restore(mem, a, ss)
    ensures FrameEnd(mem', a) == FrameEnd(mem, a) && SavedCs(mem', a) == SavedCs(mem, a)
  {
    assert SavedCs(mem', a) == SavedCs(mem, a);
    assert mem'[a..FrameEnd(mem, a)] == mem[a..FrameEnd(mem, a)];
  }

  /** The registers a thread is meant to start with: interrupts enabled, its ring's flat selectors, and
      nothing in the general registers. */
  function InitialRegs(user: bool, entry: Word, esp: Word): Regs {
    var data := if user then 0x23 else 0x10;
    Regs(0, 0, 0, 0, esp, 0, 0, 0, data, data, data, data,
         entry, if user then 0x1B else 0x08, 0x202, data)
  }

  /** Word k of the frame a new kernel thread starts from. */
  function KernelStartWord(entry: Word, k: nat): Word {
    if k < 4 then KERNEL_DATA
    else if k < 14 then 0
    else if k == 14 then entry
    else if k == 15 then KERNEL_CODE
    else INTERRUPTS_ON
  }

  /** Word k of the frame a new user thread starts from. */
  function UserStartWord(entry: Word, userEsp: Word, k: nat): Word {
    if k < 4 then USER_DATA
    else if k < 14 then 0
    else if k == 14 then entry
    else if k == 15 then USER_CODE
    else if k == 16 then INTERRUPTS_ON
    else if k == 17 then userEsp
    else USER_DATA
  }

  function StartFrame(user: bool, entry: Word, userEsp: Word): (f: seq<Word>)
    ensures |f| == FrameSize(user)
  {
    seq(FrameSize(user), k requires 0 <= k =>
      if user then UserStartWord(entry, userEsp, k) else KernelStartWord(entry, k))
  }

  /** The words of the two frames, lowest address first. */
  lemma StartFrameWords(user: bool, entry: Word, userEsp: Word)
    ensures var f := StartFrame(user, entry, userEsp);
      && (forall k :: 0 <= k < 4 ==> f[k] == if user then 0x23 else 0x10)
      && (forall k :: 4 <= k < 14 ==> f[k] == 0)
      && f[14] == entry && f[15] == (if user then 0x1B else 0x08) && f[16] == 0x202
      && (user ==> f[17] == userEsp && f[18] == 0x23)
  {
  }

  lemma LoadStart(user: bool, entry: Word, userEsp: Word, end: Word)
    ensures var f := StartFrame(user, entry, userEsp);
      |f| == FrameSize(UserMode(f[CS_OFFSET] % 0x1_0000))
      && Load(f, end, KERNEL_DATA) == InitialRegs(user, entry, if user then userEsp else end)
  {
  }

  /** First dispatch: restoring from the frame built at the top of a new kernel stack consumes
      exactly that frame and starts the thread at its entry point, in its ring, with interrupts
      enabled, zero general registers, and the stack pointer it was given. */
  lemma FirstDispatch(mem: Memory, top: nat, user: bool, entry: Word, userEsp: Word)
    requires 19 <= top <= |mem| && 4 * |mem| < TWO_TO_THE_32
    ensures var a := top - FrameSize(user); var m := Splice(mem, a, StartFrame(user, entry, userEsp));
      && HoldsFrame(m, a) && FrameEnd(m, a) == top
      && Restore(m, a, KERNEL_DATA) == InitialRegs(user, entry, if user then userEsp else 4 * top)
      && SavedCs(m, a) == (if user then USER_CODE else KERNEL_CODE)
  {
    LoadStart(user, entry, userEsp, 4 * top);
    SpliceHolds(mem, top - FrameSize(user), StartFrame(user, entry, userEsp));
  }

  /** The same, register by register: interrupts enabled, the ring's flat selectors, the general registers 0. */
  lemma FirstRegisters(mem: Memory, top: nat, user: bool, entry: Word, userEsp: Word)
    requires 19 <= top <= |mem| && 4 * |mem| < TWO_TO_THE_32
    ensures HoldsFrame(Splice(mem, top - FrameSize(user), StartFrame(user, entry, userEsp)), top - FrameSize(user))
    ensures var a := top - FrameSize(user); var m := Splice(mem, a, StartFrame(user, entry, userEsp));
      var r := Restore(m, a, 0x10);
      && r.eip == entry && r.esp == (if user then userEsp else 4 * top) && r.eflags / 0x200 % 2 == 1
      && r.eax == r.ecx == r.edx == r.ebx == r.ebp == r.esi == r.edi == 0
      && if user then r.cs == 0x1B && r.ds == r.es == r.fs == r.gs == r.ss == 0x23
         else r.cs == 0x08 && r.ds == r.es == r.fs == r.gs == r.ss == 0x10
  {
    FirstDispatch(mem, top, user, entry, userEsp);
  }
}
