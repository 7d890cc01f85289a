/** The physical frame allocator: a bitmap scanned for its lowest clear bit. */
module Pmm {
  import opened Basics
  import opened Bits

  const MAX_FRAMES := 16384
  const BITMAP_SIZE := 2048
  const FREE_START: Word := 0x0080_0000
  const FREE_END: Word := 0x0400_0000

  // ---- the allocator on values --------------------------------------------------------------

  /** bits[f] says that frame f is taken; used is the counter the allocator keeps. */
  datatype Pmm = Pmm(total: nat, used: Word, bits: seq<bool>)

  /** The number of taken frames among the first n. */
  function Taken(bits: seq<bool>, n: nat): (c: nat)
    requires n <= |bits|
    ensures c <= n
  {
    if n == 0 then 0 else Taken(bits, n - 1) + (if bits[n - 1] then 1 else 0)
  }

  lemma {:induction false} TakenAfter(bits: seq<bool>, f: nat, b: bool, n: nat)
    requires f < |bits| && n <= |bits|
    ensures Taken(bits[f := b], n) ==
            Taken(bits, n) + (if f < n && b && !bits[f] then 1 else if f < n && !b && bits[f] then -1 else 0)
    decreases n
  {
    if n > 0 {
      TakenAfter(bits, f, b, n - 1);
    }
  }

  lemma {:induction false} TakenNone(bits: seq<bool>, n: nat)
    requires n <= |bits| && forall f :: 0 <= f < n ==> !bits[f]
    ensures Taken(bits, n) == 0
    decreases n
  {
    if n > 0 {
      TakenNone(bits, n - 1);
    }
  }

  /** Some frame is free exactly when not all are taken. */
  lemma {:induction false} SomeFree(bits: seq<bool>, n: nat)
    requires n <= |bits|
    ensures Taken(bits, n) < n <==> exists f :: 0 <= f < n && !bits[f]
    decreases n
  {
    if n > 0 {
      SomeFree(bits, n - 1);
    }
  }

  /** What every use of the allocator keeps: the counter counts, and frames past the end of memory
      look taken. */
  predicate WellFormed(p: Pmm) {
    && |p.bits| == MAX_FRAMES && p.total <= MAX_FRAMES
    && p.used == Taken(p.bits, p.total)
    && forall f :: p.total <= f < MAX_FRAMES ==> p.bits[f]
  }

  /** The first clear bit from k on. */
  function LowestFree(bits: seq<bool>, k: nat): (f: nat)
    requires k <= |bits|
    ensures k <= f <= |bits|
    ensures f < |bits| ==> !bits[f]
    ensures forall i :: k <= i < f ==> bits[i]
    decreases |bits| - k
  {
    if k == |bits| || !bits[k] then k else LowestFree(bits, k + 1)
  }

  function Address(f: nat): Word
    requires f < MAX_FRAMES
  {
    FREE_START + f * PAGE_SIZE
  }

  function FrameOf(addr: Word): nat
    requires FREE_START <= addr
  {
    (addr - FREE_START) / PAGE_SIZE
  }

  /** pmm_alloc_frame */
  function Alloc(p: Pmm): (r: (Pmm, Word))
    requires |p.bits| == MAX_FRAMES
  {
    var f := LowestFree(p.bits, 0);
    if f == MAX_FRAMES then (p, 0)
    else (p.(bits := p.bits[f := true], used := (p.used + 1) % TWO_TO_THE_32), Address(f))
  }

  /** pmm_free_frame, whose counter is a 32-bit word */
  function Free(p: Pmm, addr: Word): (r: Pmm)
    requires |p.bits| == MAX_FRAMES
  {
    if addr < FREE_START || FrameOf(addr) >= MAX_FRAMES || !p.bits[FrameOf(addr)] then p
    else p.(bits := p.bits[FrameOf(addr) := false],
            used := if p.used == 0 then TWO_TO_THE_32 - 1 else p.used - 1)
  }

  /** pmm_init, given the memory above 1 MB in KB. */
  function EndOfMemory(memUpperKb: nat): nat {
    var end := (memUpperKb + 1024) * 1024;
    if end > FREE_END then FREE_END else end
  }

  /** The frames pmm_init manages. */
  function ManagedFrames(memUpperKb: nat): nat
    requires 7168 <= memUpperKb
  {
    (EndOfMemory(memUpperKb) - FREE_START) / PAGE_SIZE
  }

  /** Exactly the frames are managed that lie, whole, above 8 MB and below both 64 MB and the end of memory. */
  lemma ManagedIff(memUpperKb: nat, f: nat)
    requires 7168 <= memUpperKb
    ensures f < ManagedFrames(memUpperKb) <==>
      0x80_0000 + (f + 1) * 4096 <= 0x400_0000 && 0x80_0000 + (f + 1) * 4096 <= (memUpperKb + 1024) * 1024
    ensures ManagedFrames(memUpperKb) <= 14336
  {
  }

  /** Allocation gives the lowest free frame, page aligned and inside managed memory, and nothing
      exactly when every managed frame is taken; it takes that frame and no other. */
  lemma AllocGivesLowest(p: Pmm)
    requires WellFormed(p)
    ensures var (p', a) := Alloc(p);
      && WellFormed(p') && p'.total == p.total
      && (a == 0 <==> forall f :: 0 <= f < p.total ==> p.bits[f])
      && (if a == 0 then p' == p
          else
          && a % PAGE_SIZE == 0 && FREE_START <= a
          && FrameOf(a) < p.total && a == Address(FrameOf(a))
          && !p.bits[FrameOf(a)] && p'.bits == p.bits[FrameOf(a) := true]
          && p'.used == p.used + 1
          && forall f :: 0 <= f < FrameOf(a) ==> p.bits[f])
    ensures Alloc(p).1 != 0 ==> Alloc(p).1 == 0x80_0000 + 4096 * FrameOf(Alloc(p).1)
  {
    var f := LowestFree(p.bits, 0);
    if f < MAX_FRAMES {
      assert f < p.total;
      TakenAfter(p.bits, f, true, p.total);
    }
  }

  /** A free gives back the frame an address lies in, if it is taken, and no other. */
  lemma FreeGivesBack(p: Pmm, addr: Word)
    requires WellFormed(p) && 0x80_0000 <= addr < 0x80_0000 + 4096 * p.total
    ensures var p' := Free(p, addr);
      && WellFormed(p') && p'.total == p.total && p'.bits == p.bits[(addr - 0x80_0000) / 4096 := false]
      && p'.used == p.used - (if p.bits[(addr - 0x80_0000) / 4096] then 1 else 0)
  {
    var f := FrameOf(addr);
    assert f < p.total;
    TakenAfter(p.bits, f, false, p.total);
    assert !p.bits[f] ==> p.bits[f := false] == p.bits;
  }

  /** The exact condition under which a free keeps the allocator consistent: the address must not
      lie between the end of managed memory and the end of the bitmap. */
  lemma FreeKeepsIff(p: Pmm, addr: Word)
    requires WellFormed(p)
    ensures WellFormed(Free(p, addr)) <==> !(0x80_0000 + 4096 * p.total <= addr < 0x80_0000 + 4096 * 16384)
    ensures !(0x80_0000 <= addr < 0x80_0000 + 4096 * 16384) ==> Free(p, addr) == p
  {
    if FREE_START <= addr && FrameOf(addr) < p.total {
      FreeGivesBack(p, addr);
    } else if FREE_START <= addr && FrameOf(addr) < MAX_FRAMES {
      assert !Free(p, addr).bits[FrameOf(addr)];
    }
  }

  /** An address that breaks it, however much memory there is: 64 MB, the end of the managed memory. The
      counter is off, and once all real frames are taken the allocator hands out that address. */
  lemma FreeBreaks(memUpperKb: nat, p: Pmm)
    requires 7168 <= memUpperKb && WellFormed(p) && p.total == ManagedFrames(memUpperKb)
    ensures !WellFormed(Free(p, FREE_END))
    ensures p.used > 0 ==> Free(p, FREE_END).used == Taken(Free(p, FREE_END).bits, p.total) - 1
    ensures (forall f :: 0 <= f < p.total ==> p.bits[f]) ==> Alloc(Free(p, FREE_END)).1 == FREE_END
  {
    FreeKeepsIff(p, FREE_END);
    var f, p' := FrameOf(FREE_END), Free(p, FREE_END);
    assert p'.bits == p.bits[f := false];
    TakenAfter(p.bits, f, false, p.total);
    if forall i :: 0 <= i < p.total ==> p.bits[i] {
      var r := LowestFree(p'.bits, 0);
      assert !p'.bits[f] && forall i :: 0 <= i < f ==> p'.bits[i];
      assert r == f;
    }
  }

  lemma AllocThenFree(p: Pmm)
    requires WellFormed(p) && Alloc(p).1 != 0
    ensures Free(Alloc(p).0, Alloc(p).1) == p
  {
    AllocGivesLowest(p);
    var (p', a) := Alloc(p);
    assert Free(p', a).bits == p.bits;
  }

  // ---- histories ---------------------------------------------------------------------------

  datatype Op = Take(given: Word) | Give(addr: Word)

  predicate Follows(p: Pmm, op: Op, p': Pmm)
    requires |p.bits| == MAX_FRAMES
  {
    match op
    case Take(a) => (p', a) == Alloc(p)
    case Give(a) => p' == Free(p, a) && !(FREE_START <= a && p.total <= FrameOf(a) < MAX_FRAMES)
  }

  predicate History(ps: seq<Pmm>, ops: seq<Op>) {
    && |ps| == |ops| + 1 && WellFormed(ps[0])
    && (forall k :: 0 <= k < |ps| ==> |ps[k].bits| == MAX_FRAMES)
    && forall k {:trigger ops[k]} :: 0 <= k < |ops| ==> Follows(ps[k], ops[k], ps[k + 1])
  }

  lemma {:induction false} HistoryWellFormed(ps: seq<Pmm>, ops: seq<Op>, k: nat)
    requires History(ps, ops) && k < |ps|
    ensures WellFormed(ps[k])
    decreases k
  {
    if k > 0 {
      HistoryWellFormed(ps, ops, k - 1);
      assert Follows(ps[k - 1], ops[k - 1], ps[k]);
      match ops[k - 1]
      case Take(_) => AllocGivesLowest(ps[k - 1]);
      case Give(a) => FreeKeepsIff(ps[k - 1], a);
    }
  }

  predicate GivesBack(op: Op, f: nat) {
    op.Give? && FREE_START <= op.addr && FrameOf(op.addr) == f
  }

  lemma {:induction false} StaysTaken(ps: seq<Pmm>, ops: seq<Op>, f: nat, j: nat, k: nat)
    requires History(ps, ops) && j <= k < |ps| && f < MAX_FRAMES && ps[j].bits[f]
    requires forall i :: j <= i < k ==> !GivesBack(ops[i], f)
    ensures ps[k].bits[f]
    decreases k
  {
    if j < k {
      StaysTaken(ps, ops, f, j, k - 1);
      assert Follows(ps[k - 1], ops[k - 1], ps[k]);
    }
  }

  /** Over any history, no frame is handed out a second time before it has been given back. */
  lemma NeverTwice(ps: seq<Pmm>, ops: seq<Op>, j: nat, k: nat)
    requires History(ps, ops) && j < k < |ops|
    requires ops[j].Take? && ops[k].Take? && ops[j].given != 0
    requires ops[k].given == ops[j].given
    ensures FREE_START <= ops[j].given
    ensures exists i :: j < i < k && GivesBack(ops[i], FrameOf(ops[j].given))
  {
    HistoryWellFormed(ps, ops, j);
    HistoryWellFormed(ps, ops, k);
    assert Follows(ps[j], ops[j], ps[j + 1]) && Follows(ps[k], ops[k], ps[k + 1]);
    AllocGivesLowest(ps[j]);
    AllocGivesLowest(ps[k]);
    var f := FrameOf(ops[j].given);
    if forall i :: j < i < k ==> !GivesBack(ops[i], f) {
      StaysTaken(ps, ops, f, j + 1, k);
    }
  }

  // ---- the bitmap in memory ----------------------------------------------------------------

  class FrameAllocator {
    const bitmap: array<bv8>
    var total: nat
    var used: Word

    ghost predicate Valid() {
      bitmap.Length == BITMAP_SIZE
    }

    ghost function Bits(): (r: seq<bool>)
      reads bitmap
      requires Valid()
      ensures |r| == MAX_FRAMES
      ensures forall f :: 0 <= f < MAX_FRAMES ==> r[f] == Bit(bitmap[f / 8], f % 8)
    {
      seq(MAX_FRAMES, f requires 0 <= f < MAX_FRAMES && Valid() reads bitmap => Bit(bitmap[f / 8], f % 8))
    }

    ghost function Abs(): (p: Pmm)
      reads this, bitmap
      requires Valid()
      ensures |p.bits| == MAX_FRAMES
    {
      Pmm(total, used, Bits())
    }

    method BitmapSet(frame: nat)
      requires Valid() && frame < MAX_FRAMES
      modifies bitmap
      ensures Bits() == old(Bits())[frame := true]
    {
      forall k | 0 <= k < 8 { SetBit(bitmap[frame / 8], frame % 8, k); }
      bitmap[frame / 8] := WithBit(bitmap[frame / 8], frame % 8);
    }

    method BitmapClear(frame: nat)
      requires Valid() && frame < MAX_FRAMES
      modifies bitmap
      ensures Bits() == old(Bits())[frame := false]
    {
      forall k | 0 <= k < 8 { ClearBit(bitmap[frame / 8], frame % 8, k); }
      bitmap[frame / 8] := WithoutBit(bitmap[frame / 8], frame % 8);
    }

    function BitmapTest(frame: nat): bool
      reads bitmap
      requires Valid() && frame < MAX_FRAMES
    {
      (bitmap[frame / 8] >> (frame % 8)) & 1 == 1
    }

    /** pmm_init. The address arithmetic must not wrap and memory must reach the first managed frame. */
    constructor (memUpperKb: nat)
      requires 7168 <= memUpperKb && (memUpperKb + 1024) * 1024 < TWO_TO_THE_32
      ensures Valid() && WellFormed(Abs()) && used == 0 && fresh(bitmap)
      ensures total == ManagedFrames(memUpperKb)
      ensures forall f :: 0 <= f < MAX_FRAMES ==> (Bits()[f] <==> f >= total)
    {
      bitmap := new bv8[BITMAP_SIZE];
      used := 0;
      total := 0;
      new;
      for i := 0 to BITMAP_SIZE
        invariant forall x :: 0 <= x < i ==> bitmap[x] == 0xFF
      {
        bitmap[i] := 0xFF;
      }
      forall f | 0 <= f < MAX_FRAMES ensures Bits()[f] { FullByte(f % 8); }
      var end := (memUpperKb + 1024) * 1024;
      if end > FREE_END { end := FREE_END; }
      var endFrame := (end - FREE_START) / PAGE_SIZE;
      if endFrame > MAX_FRAMES { endFrame := MAX_FRAMES; }
      total := endFrame;
      for i := 0 to endFrame
        invariant total == endFrame
        invariant forall f :: 0 <= f < MAX_FRAMES ==> (Bits()[f] <==> f >= i)
      {
        BitmapClear(i);
      }
      used := 0;
      TakenNone(Bits(), total);
    }

    /** pmm_alloc_frame */
    method AllocFrame() returns (addr: Word)
      requires Valid()
      modifies this`used, bitmap
      ensures (Abs(), addr) == Alloc(old(Abs()))
    {
      for i := 0 to BITMAP_SIZE
        invariant Bits() == old(Bits()) && used == old(used)
        invariant forall f :: 0 <= f < 8 * i ==> Bits()[f]
      {
        if bitmap[i] == 0xFF {
          forall f | 8 * i <= f < 8 * i + 8 ensures Bits()[f] { FullByte(f % 8); }
          continue;
        }
        for j := 0 to 8
          invariant Bits() == old(Bits()) && used == old(used)
          invariant forall f :: 0 <= f < 8 * i + j ==> Bits()[f]
        {
          var frame := i * 8 + j;
          if !BitmapTest(frame) {
            assert LowestFree(Bits(), 0) == frame;
            BitmapSet(frame);
            used := (used + 1) % TWO_TO_THE_32;
            return FREE_START + frame * PAGE_SIZE;
          }
        }
      }
      return 0;
    }

    /** pmm_free_frame */
    method FreeFrame(addr: Word)
      requires Valid()
      modifies this`used, bitmap
      ensures Abs() == Free(old(Abs()), addr)
    {
      if addr < FREE_START { return; }
      var frame := (addr - FREE_START) / PAGE_SIZE;
      if frame >= MAX_FRAMES { return; }
      if BitmapTest(frame) {
        BitmapClear(frame);
        used := if used == 0 then TWO_TO_THE_32 - 1 else used - 1;
      }
    }
  }
}
