/**
 The display driver in place: a shadow array in RAM, and the adapter, whose map mask selects the planes
 a write reaches.  Every operation is proved equal to the pixel-by-pixel drawing of VgaDrawing and
 VgaRuns; a rectangle that reaches past an edge, to what VgaSpill says.
 */
module VgaScreen {
  import opened Basics
  import opened Bits
  import opened VgaDisplay
  import opened VgaDrawing
  import opened VgaRuns
  import opened VgaSpill
  import opened Bresenham

  /** A write to the frame buffer: it reaches the planes the mask selects. */
  function Latched(planes: seq<seq<bv8>>, mask: bv8, addr: nat, v: bv8): (r: seq<seq<bv8>>)
    requires |planes| == 4 && (forall p :: 0 <= p < 4 ==> |planes[p]| == PLANE) && addr < PLANE
  {
    seq(4, p requires 0 <= p < 4 => if Bit(mask, p) then planes[p][addr := v] else planes[p])
  }

  function Only(p: nat): bv8
    requires p < 4
  {
    WithBit(0, p)
  }

  lemma OnlyBit(p: nat, k: nat)
    requires p < 4 && k < 4
    ensures Bit(Only(p), k) <==> k == p
  {
    SetBit(0, p, k);
    EmptyByte(k);
  }

  /** A write with a single plane selected. */
  lemma LatchedOnly(planes: seq<seq<bv8>>, p: nat, addr: nat, v: bv8)
    requires |planes| == 4 && (forall p :: 0 <= p < 4 ==> |planes[p]| == PLANE) && addr < PLANE && p < 4
    ensures Latched(planes, Only(p), addr, v) == planes[p := planes[p][addr := v]]
  {
    forall k | 0 <= k < 4 { OnlyBit(p, k); }
  }

  /** The VGA adapter in write mode 0. */
  class Adapter {
    var planes: seq<seq<bv8>>
    var mapMask: bv8

    ghost predicate Valid()
      reads this
    {
      |planes| == 4 && forall p :: 0 <= p < 4 ==> |planes[p]| == PLANE
    }

    constructor (planes: seq<seq<bv8>>, mapMask: bv8)
      requires |planes| == 4 && forall p :: 0 <= p < 4 ==> |planes[p]| == PLANE
      ensures Valid() && this.planes == planes && this.mapMask == mapMask
    {
      this.planes, this.mapMask := planes, mapMask;
    }

    /** VgaWriteSequencer; of the sequencer's registers only the map mask, number 2, is used. */
    method WriteSequencer(index: nat, value: bv8)
      requires index == 2
      modifies this`mapMask
      ensures mapMask == value
    {
      mapMask := value;
    }

    /** A byte written by the processor. */
    method Write(addr: nat, v: bv8)
      requires Valid() && addr < PLANE
      modifies this`planes
      ensures Valid() && planes == Latched(old(planes), mapMask, addr, v)
    {
      planes := Latched(planes, mapMask, addr, v);
    }
  }

  class Screen {
    const shadow: array<bv8>
    const adapter: Adapter
    var device: bool     // a device object is set
    var graphics: bool   // the device is in graphics mode

    constructor (shadow: array<bv8>, adapter: Adapter)
      ensures this.shadow == shadow && this.adapter == adapter && !device
    {
      this.shadow, this.adapter, device, graphics := shadow, adapter, false, false;
    }

    ghost predicate Valid()
      reads shadow, adapter
    {
      shadow.Length == PIXELS && adapter.Valid()
    }

    ghost function Abs(): (d: Display)
      reads shadow, adapter
      requires Valid()
      ensures VgaDisplay.Valid(d)
    {
      Display(shadow[..], adapter.planes, adapter.mapMask)
    }

    predicate On()
      reads this
    {
      device && graphics
    }

    /** VgaGetPixel, which reads the shadow: where shadow and planes agree, its four low bits are what the
        adapter shows at that place, and off the screen it is 0. */
    function GetPixel(x: int, y: int): (c: bv8)
      reads shadow, adapter
      requires Valid()
      ensures !OnScreen(x, y) ==> c == 0
      ensures 0 <= x < 640 && 0 <= y < 480 ==> c == shadow[y * 640 + x]
      ensures OnScreen(x, y) && Agree(Abs()) ==>
        forall p :: 0 <= p < 4 ==> (Bit(c, p) <==> Bit(adapter.planes[p][y * 80 + x / 8], 7 - x % 8))
    {
      if !OnScreen(x, y) then 0 else
        var c := shadow[Index(x, y)];
        assert Agree(Abs()) ==> forall p :: 0 <= p < 4 ==> (Bit(c, p) <==> Bit(adapter.planes[p][y * 80 + x / 8], 7 - x % 8)) by {
          if Agree(Abs()) {
            ShadowShown(Abs(), x, y);
          }
        }
        c
    }

    /** The inner loop of VgaPutPixel: byte i of plane p, rebuilt from the shadow. */
    method RebuildByte(i: nat, p: nat) returns (value: bv8)
      requires Valid() && i < BYTES && p < 4
      ensures value == PlaneByte(shadow[..], i, p)
    {
      value := 0;
      for b: nat := 0 to 8
        invariant value == PlaneBits(shadow[..], i, p, b)
      {
        var colour := PixelOf(shadow[..], i, b);
        TestBit(colour, p);
        if colour & ((1 as bv8) << p) != 0 {
          ShiftedDown(b);
          assert value | ((0x80 as bv8) >> b) == WithBit(value, 7 - b);
          value := value | ((0x80 as bv8) >> b);
        }
      }
    }

    /** One round of the plane loop of VgaPutPixel. */
    method WritePlane(i: nat, p: nat)
      requires Valid() && i < BYTES && p < 4
      modifies adapter
      ensures Valid()
      ensures adapter.planes == old(adapter.planes)[p := old(adapter.planes)[p][i := PlaneByte(shadow[..], i, p)]]
    {
      var value := RebuildByte(i, p);
      LatchedOnly(adapter.planes, p, i, value);
      adapter.WriteSequencer(2, Only(p));
      adapter.Write(i, value);
    }

    /** The plane loop of VgaPutPixel. */
    method WriteByte(i: nat)
      requires Valid() && i < BYTES
      modifies adapter
      ensures Valid() && adapter.planes == Repair(old(adapter.planes), shadow[..], {i}) && adapter.mapMask == 0x0F
    {
      ghost var planes, s := adapter.planes, shadow[..];
      for p: nat := 0 to 4
        invariant Valid() && Rebuilt(planes, adapter.planes, s, i, p)
      {
        WritePlane(i, p);
      }
      RebuiltAll(planes, adapter.planes, s, i);
      adapter.WriteSequencer(2, ALL_PLANES);
    }

    /** VgaPutPixel */
    method PutPixel(x: int, y: int, c: bv8)
      requires Valid()
      modifies shadow, adapter
      ensures Valid() && Abs() == if device && graphics then VgaDrawing.PutPixel(old(Abs()), x, y, c) else old(Abs())
    {
      if !On() || !OnScreen(x, y) { return; }
      var i := y * (WIDTH / 8) + x / 8;
      shadow[Index(x, y)] := c;
      WriteByte(i);
    }

    // ---- filling --------------------------------------------------------------------------------

    /** n bytes of plane p, one after the other. */
    method FillPlane(addr: nat, n: nat, p: nat, v: bv8)
      requires Valid() && addr + n <= PLANE && p < 4
      modifies adapter
      ensures Valid() && adapter.planes == old(adapter.planes)[p := Painted(old(adapter.planes)[p], addr, n, v)]
    {
      ghost var planes := adapter.planes;
      adapter.WriteSequencer(2, Only(p));
      for b: nat := 0 to n
        invariant Valid() && adapter.mapMask == Only(p)
        invariant adapter.planes == planes[p := Painted(planes[p], addr, b, v)]
      {
        LatchedOnly(adapter.planes, p, addr + b, v);
        adapter.Write(addr + b, v);
        assert Painted(planes[p], addr, b, v)[addr + b := v] == Painted(planes[p], addr, b + 1, v);
      }
    }

    /** n bytes of all planes, for pixels of one colour. */
    method FillPlanes(addr: nat, n: nat, c: bv8)
      requires Valid() && addr + n <= PLANE
      modifies adapter
      ensures Valid() && Solids(old(adapter.planes), adapter.planes, addr, n, c, 4) && adapter.mapMask == 0x0F
    {
      ghost var planes := adapter.planes;
      for p: nat := 0 to 4
        invariant Valid() && Solids(planes, adapter.planes, addr, n, c, p)
      {
        TestBit(c, p);
        FillPlane(addr, n, p, if c & ((1 as bv8) << p) != 0 then 0xFF else 0x00);
      }
      adapter.WriteSequencer(2, ALL_PLANES);
    }

    /** VgaClearScreen */
    method ClearScreen(c: bv8)
      requires Valid()
      modifies shadow, adapter
      ensures Valid() && Abs() == if device && graphics then Paint(old(Abs()), Whole(c)) else old(Abs())
    {
      if !On() { return; }
      ghost var d := Abs();
      FillPlanes(0, HEIGHT * (WIDTH / 8), c);
      for q := 0 to PIXELS
        invariant Valid() && adapter.mapMask == 0x0F && Solids(d.planes, adapter.planes, 0, BYTES, c, 4)
        invariant forall k :: 0 <= k < q ==> shadow[k] == c
      {
        shadow[q] := c;
      }
      ClearedIs(d, Abs(), c);
    }

    /** The inner loop of the shadow part of VgaFillRect. */
    method ShadowRow(x: int, yy: int, width: nat, c: bv8)
      requires Valid() && 0 <= yy < HEIGHT
      modifies shadow
      ensures Valid() && shadow[..] == FillShadow(old(shadow[..]), x, yy, width, 1, c)
    {
      ghost var s := shadow[..];
      assert s == FillShadow(s, x, yy, 0, 1, c);
      for col: nat := 0 to width
        invariant shadow[..] == FillShadow(s, x, yy, col, 1, c)
      {
        FillNext(s, x, yy, col, c);
        if 0 <= x + col < WIDTH {
          shadow[Index(x + col, yy)] := c;
        }
      }
    }

    /** The shadow part of VgaFillRect. */
    method ShadowRect(x: int, y: int, width: nat, height: nat, c: bv8)
      requires Valid()
      modifies shadow
      ensures Valid() && shadow[..] == FillShadow(old(shadow[..]), x, y, width, height, c)
    {
      ghost var s := shadow[..];
      assert s == FillShadow(s, x, y, width, 0, c);
      for row: nat := 0 to height
        invariant shadow[..] == FillShadow(s, x, y, width, row, c)
      {
        FillNextRow(s, x, y, width, row, c);
        if 0 <= y + row < HEIGHT {
          ShadowRow(x, y + row, width, c);
        }
      }
    }

    /** The pixel loops at both ends of a row: pixels from column from on, while they are before end and, for
        the left end, not at the start of a byte. They are all in byte column col. */
    method EdgePixels(yy: nat, from: int, end: int, left: bool, c: bv8, ghost col: int, ghost to: int) returns (start: int)
      requires Valid() && On() && yy < HEIGHT && from <= end && RowIs(shadow[..], from, end, yy, c)
      requires to == (if left && 8 * FirstByte(from) < end then 8 * FirstByte(from) else end)
      requires forall px {:trigger px / 8} :: from <= px < to ==> px / 8 == col
      modifies shadow, adapter
      ensures Valid() && start == to && shadow[..] == old(shadow[..])
      ensures adapter.planes == EdgeDone(old(adapter.planes), shadow[..], col, yy, from < to)
      ensures adapter.mapMask == if from < to && OnRow(col) then 0x0F else old(adapter.mapMask)
    {
      ghost var planes, s, mask := adapter.planes, shadow[..], adapter.mapMask;
      start := from;
      while start < end && (!left || start % 8 != 0)
        invariant Valid() && from <= start <= to && shadow[..] == s
        invariant adapter.planes == EdgeDone(planes, s, col, yy, from < start)
        invariant adapter.mapMask == if from < start && OnRow(col) then 0x0F else mask
        decreases end - start
      {
        EdgePixel(yy, start, end, c, col, planes, from < start);
        start := start + 1;
      }
    }

    /** One of those pixels. */
    method EdgePixel(yy: nat, at: int, end: int, c: bv8, ghost col: int, ghost planes: seq<seq<bv8>>, ghost done: bool)
      requires Valid() && On() && yy < HEIGHT && at < end && at / 8 == col && RowIs(shadow[..], at, end, yy, c)
      requires |planes| == 4 && forall p :: 0 <= p < 4 ==> |planes[p]| == PLANE
      requires adapter.planes == EdgeDone(planes, shadow[..], col, yy, done)
      modifies shadow, adapter
      ensures Valid() && shadow[..] == old(shadow[..]) && adapter.planes == EdgeDone(planes, shadow[..], col, yy, true)
      ensures adapter.mapMask == if OnRow(col) then 0x0F else old(adapter.mapMask)
    {
      ghost var d := Abs();
      EdgeNext(planes, d, at, col, yy, done, c);
      PutPixel(at, yy, c);
    }

    /** The whole bytes of a row. */
    method FillBytes(x: int, yy: nat, width: nat, from: int, end: int, c: bv8) returns (start: int)
      requires Valid() && yy < HEIGHT && end == x + width && RowInWindow(x, yy, width)
      requires from == if 8 * FirstByte(x) < end then 8 * FirstByte(x) else end
      modifies adapter
      ensures Valid() && start == (if from < end then 8 * LastByte(x, width) else end)
      ensures SolidsDone(old(adapter.planes), adapter.planes, x, yy, width, c)
      ensures adapter.mapMask == if WholeBytes(x, width) > 0 then 0x0F else old(adapter.mapMask)
    {
      start := from;
      if start + 8 <= end {
        var bytes := (end - start) / 8;
        ghost var before := adapter.planes;
        FillPlanes(yy * (WIDTH / 8) + start / 8, bytes, c);
        forall p: nat, i: nat | p < 4 && i < PLANE
          ensures adapter.planes[p][i] == if SolidAt(x, yy, width, i) then Solid(c, p) else before[p][i]
        {
          assert adapter.planes[p] == Painted(before[p], yy * (WIDTH / 8) + start / 8, bytes, Solid(c, p));
        }
        start := start + bytes * 8;
      }
    }

    /** One row of the adapter part of VgaFillRect: single pixels up to the first whole byte, whole bytes,
        single pixels again. */
    method FillRow(x: int, yy: nat, width: nat, c: bv8)
      requires Valid() && On() && yy < HEIGHT && width > 0 && RowIs(shadow[..], x, x + width, yy, c) && RowInWindow(x, yy, width)
      modifies shadow, adapter
      ensures Valid() && shadow[..] == old(shadow[..])
      ensures adapter.planes == SpillRow(old(adapter.planes), shadow[..], x, yy, width, c)
      ensures adapter.mapMask == if RowWrites(x, width) then 0x0F else old(adapter.mapMask)
    {
      ghost var planes, s := adapter.planes, shadow[..];
      var end := x + width;
      var start := EdgePixels(yy, x, end, true, c, FirstByte(x) - 1, if 8 * FirstByte(x) < end then 8 * FirstByte(x) else end);
      ghost var p1 := adapter.planes;
      start := FillBytes(x, yy, width, start, end, c);
      ghost var p2 := adapter.planes;
      start := EdgePixels(yy, start, end, false, c, LastByte(x, width), end);
      RowComposed(planes, p1, p2, s, x, yy, width, c);
    }

    /** The adapter part of VgaFillRect; s is the shadow, filled. */
    method FillRows(x: int, y: int, width: nat, height: nat, c: bv8, ghost s: seq<bv8>)
      requires Valid() && On() && width > 0 && InWindow(x, y, width, height) && shadow[..] == s
      requires RowsAre(s, x, x + width, y, height, c)
      modifies shadow, adapter
      ensures Valid() && shadow[..] == s
      ensures adapter.planes == SpillRows(old(adapter.planes), s, x, y, width, height, c)
      ensures adapter.mapMask == if RowWrites(x, width) && Visible(y, width, height) then 0x0F else old(adapter.mapMask)
    {
      ghost var planes, mask := adapter.planes, adapter.mapMask;
      for row: nat := 0 to height
        invariant Valid() && shadow[..] == s && adapter.planes == SpillRows(planes, s, x, y, width, row, c)
        invariant adapter.mapMask == if RowWrites(x, width) && Visible(y, width, row) then 0x0F else mask
      {
        var yy := y + row;
        if 0 <= yy < HEIGHT {
          assert RowIs(s, x, x + width, yy, c) && RowInWindow(x, yy, width);
          FillRow(x, yy, width, c);
        }
      }
    }

    /** VgaFillRect: the shadow is filled, clipped to the screen; and with the adapter on, the planes are
        written row by row, whole bytes first to last, clipped in rows alone. Within the screen's columns that
        is as if every pixel of the rectangle had been put on its own. The bytes must lie in the adapter's
        memory. */
    method FillRect(x: int, y: int, width: int, height: int, c: bv8)
      requires Valid()
      requires device && graphics && width > 0 && height > 0 ==> InWindow(x, y, width, height)
      modifies shadow, adapter
      ensures Valid()
      ensures Abs() ==
        if width <= 0 || height <= 0 then old(Abs())
        else if device && graphics then SpillRect(old(Abs()), x, y, width, height, c)
        else old(Abs()).(shadow := FillShadow(old(Abs()).shadow, x, y, width, height, c))
      ensures device && graphics && width > 0 && height > 0 && 0 <= x && x + width <= WIDTH ==>
        Abs() == Paint(old(Abs()), Rect(x, y, width, height, c))
    {
      if width <= 0 || height <= 0 { return; }
      ghost var d := Abs();
      ShadowRect(x, y, width, height, c);
      if !On() { return; }
      FilledRows(d.shadow, x, x + width, y, width, height, c);
      FillRows(x, y, width, height, c, shadow[..]);
      if 0 <= x && x + width <= WIDTH {
        SpillFits(d, x, y, width, height, c);
      }
    }

    /** One plot of VgaDrawLine, on the way along a line that started from d. */
    method Plot(x1: int, y1: int, x2: int, y2: int, x: int, y: int, c: bv8, ghost d: Display, ghost k: nat)
      requires Valid() && VgaDisplay.Valid(d) && (x, y) == Point(x1, y1, x2, y2, k)
      requires Abs() == if device && graphics then LinePixels(d, x1, y1, x2, y2, k, c) else d
      modifies shadow, adapter
      ensures Valid() && Abs() == if device && graphics then LinePixels(d, x1, y1, x2, y2, k + 1, c) else d
    {
      PutPixel(x, y, c);
    }

    /** VgaDrawLine: exactly the points of the line, in order. Signed 32-bit arithmetic must not overflow. */
    method DrawLine(x1: int, y1: int, x2: int, y2: int, c: bv8)
      requires Valid() && NoOverflow(Magnitude(x2 - x1), Magnitude(y2 - y1))
      modifies shadow, adapter
      ensures Valid() && Abs() == if device && graphics then Paint(old(Abs()), Line(x1, y1, x2, y2, c)) else old(Abs())
    {
      if !device { return; }
      ghost var d, k: nat := Abs(), 0;
      var dx: Int32 := if x2 > x1 then x2 - x1 else x1 - x2;
      var dy: Int32 := if y2 > y1 then y2 - y1 else y1 - y2;
      var sx := if x1 < x2 then 1 else -1;
      var sy := if y1 < y2 then 1 else -1;
      var err: Int32 := dx - dy;
      var x, y := x1, y1;
      StartLine(x1, y1, x2, y2);
      while true
        invariant Valid() && LoopAt(x1, y1, x2, y2, k, x, y, err)
        invariant Abs() == if device && graphics then LinePixels(d, x1, y1, x2, y2, k, c) else d
        decreases Length(x1, y1, x2, y2) - k
      {
        Plot(x1, y1, x2, y2, x, y, c, d, k);
        EndIsLast(x1, y1, x2, y2, k);
        if x == x2 && y == y2 { break; }
        ghost var k' := NextRound(x1, y1, x2, y2, k, x, y, err, dx, dy);
        var e2: Int32 := 2 * err;
        if e2 > -dy {
          err := err - dy;
          x := x + sx;
        }
        if e2 < dx {
          err := err + dx;
          y := y + sy;
        }
        k := k';
      }
    }
  }

  /** The state of the loop of VgaDrawLine at point k. */
  predicate LoopAt(x1: int, y1: int, x2: int, y2: int, k: nat, x: int, y: int, err: int) {
    && k < Length(x1, y1, x2, y2) && (x, y) == Point(x1, y1, x2, y2, k)
    && err == ErrorAt(Magnitude(x2 - x1), Magnitude(y2 - y1), k)
  }

  lemma StartLine(x1: int, y1: int, x2: int, y2: int)
    ensures LoopAt(x1, y1, x2, y2, 0, x1, y1, Magnitude(x2 - x1) - Magnitude(y2 - y1))
  {
    PointBounds(x1, y1, x2, y2, 0);
    MinorBounds(Max(Magnitude(x2 - x1), Magnitude(y2 - y1)), 0, 0);
  }

  lemma NextRound(x1: int, y1: int, x2: int, y2: int, k: nat, x: int, y: int, err: int, dx: int, dy: int) returns (k': nat)
    requires LoopAt(x1, y1, x2, y2, k, x, y, err) && k + 1 < Length(x1, y1, x2, y2)
    requires dx == Magnitude(x2 - x1) && dy == Magnitude(y2 - y1) && NoOverflow(dx, dy)
    ensures k' == k + 1 && InInt32(2 * err) && (2 * err > -dy ==> InInt32(err - dy))
    ensures InInt32(err - (if 2 * err > -dy then dy else 0) + (if 2 * err < dx then dx else 0))
    ensures var right, down := 2 * err > -dy, 2 * err < dx;
      LoopAt(x1, y1, x2, y2, k', if right then x + Sign(x1, x2) else x, if down then y + Sign(y1, y2) else y,
             err - (if right then dy else 0) + (if down then dx else 0))
  {
    NextPoint(x1, y1, x2, y2, k);
    assert StepFits(dx, dy, k);
    k' := k + 1;
  }

  /** Byte i of the first n planes is rebuilt, and nothing else is changed. */
  predicate Rebuilt(before: seq<seq<bv8>>, after: seq<seq<bv8>>, s: seq<bv8>, i: nat, n: nat) {
    && |before| == |after| == 4 && |s| == PIXELS && i < BYTES && n <= 4
    && (forall p :: 0 <= p < 4 ==> |before[p]| == PLANE)
    && forall p :: 0 <= p < 4 ==> after[p] == if p < n then before[p][i := PlaneByte(s, i, p)] else before[p]
  }

  lemma RebuiltAll(before: seq<seq<bv8>>, after: seq<seq<bv8>>, s: seq<bv8>, i: nat)
    requires Rebuilt(before, after, s, i, 4)
    ensures after == Repair(before, s, {i})
  {
    forall p: nat, k: nat | p < 4 && k < PLANE ensures RepairedAt(before, after, s, {i}, p, k) {
      assert after[p] == before[p][i := PlaneByte(s, i, p)];
    }
    RepairedUnique(before, after, Repair(before, s, {i}), s, {i});
  }

  // ---- filled bytes -------------------------------------------------------------------------------

  function Painted(plane: seq<bv8>, addr: nat, n: nat, v: bv8): (r: seq<bv8>)
    requires |plane| == PLANE && addr + n <= PLANE
    ensures |r| == PLANE && (n == 0 ==> r == plane)
  {
    seq(PLANE, i requires 0 <= i < PLANE => if addr <= i < addr + n then v else plane[i])
  }

  /** The first m planes have n bytes of one colour, and nothing else is changed. */
  predicate Solids(before: seq<seq<bv8>>, after: seq<seq<bv8>>, addr: nat, n: nat, c: bv8, m: nat) {
    && |before| == |after| == 4 && m <= 4 && addr + n <= PLANE
    && (forall p :: 0 <= p < 4 ==> |before[p]| == PLANE)
    && forall p :: 0 <= p < 4 ==> after[p] == if p < m then Painted(before[p], addr, n, Solid(c, p)) else before[p]
  }

  /** Bytes of one colour are right where all their pixels have that colour. */
  lemma SolidsRepair(before: seq<seq<bv8>>, after: seq<seq<bv8>>, s: seq<bv8>, addr: nat, n: nat, c: bv8, t: set<nat>)
    requires Solids(before, after, addr, n, c, 4) && |s| == PIXELS
    requires forall i: nat :: i in t <==> i < BYTES && addr <= i < addr + n
    requires forall i: nat, b: nat {:trigger PixelOf(s, i, b)} :: i in t && b < 8 && i < BYTES ==> PixelOf(s, i, b) == c
    requires addr + n <= BYTES
    ensures Repaired(before, after, s, t)
  {
    forall p: nat, i: nat | p < 4 && i < PLANE ensures RepairedAt(before, after, s, t, p, i) {
      assert after[p] == Painted(before[p], addr, n, Solid(c, p));
      if i in t {
        SolidByte(s, i, p, c);
      }
    }
  }

  lemma ClearedIs(d: Display, d': Display, c: bv8)
    requires Valid(d) && Valid(d') && Solids(d.planes, d'.planes, 0, BYTES, c, 4) && d'.mapMask == 0x0F
    requires forall q :: 0 <= q < PIXELS ==> d'.shadow[q] == c
    ensures d' == Paint(d, Whole(c))
  {
    SolidsRepair(d.planes, d'.planes, d'.shadow, 0, BYTES, c, Touched(0, 0, WIDTH, HEIGHT));
    assert d'.shadow == FillShadow(d.shadow, 0, 0, WIDTH, HEIGHT, c);
    RectDrawn(d, 0, 0, WIDTH, HEIGHT, c);
    DrawnUnique(d, d', Paint(d, Whole(c)), 0, 0, WIDTH, HEIGHT, c);
  }

  lemma FillNext(s: seq<bv8>, x: int, y: int, n: nat, c: bv8)
    requires |s| == PIXELS && 0 <= y < HEIGHT
    ensures FillShadow(s, x, y, n + 1, 1, c) ==
            var r := FillShadow(s, x, y, n, 1, c); if OnScreen(x + n, y) then r[Index(x + n, y) := c] else r
  {
  }

  lemma FillNextRow(s: seq<bv8>, x: int, y: int, w: nat, h: nat, c: bv8)
    requires |s| == PIXELS
    ensures FillShadow(s, x, y, w, h + 1, c) ==
            var r := FillShadow(s, x, y, w, h, c); if 0 <= y + h < HEIGHT then FillShadow(r, x, y + h, w, 1, c) else r
  {
  }
}
