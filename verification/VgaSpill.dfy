/**
 VgaFillRect at any place: rows are clipped, columns are not. Beyond the left or the right edge the whole
 bytes of a row fall on other rows. What that does to the planes, and when planes and shadow still agree.
 */
module VgaSpill {
  import opened Bits
  import opened VgaDisplay
  import opened VgaDrawing

  // ---- one row ------------------------------------------------------------------------------------

  /** The first whole byte of a row from column x on, as a byte column; negative left of the screen. */
  function FirstByte(x: int): int { (x + 7) / 8 }

  /** How many whole bytes there are up to column x + w. */
  function WholeBytes(x: int, w: nat): nat {
    if 8 * FirstByte(x) + 8 <= x + w then (x + w - 8 * FirstByte(x)) / 8 else 0
  }

  /** The byte column of the pixels after the last whole byte. */
  function LastByte(x: int, w: nat): int { FirstByte(x) + WholeBytes(x, w) }

  /** The pixels before the first whole byte are in one byte, and so are those after the last. */
  predicate HasLeft(x: int, w: nat) { w > 0 && x % 8 != 0 }
  predicate HasRight(x: int, w: nat) { 8 * LastByte(x, w) < x + w }

  predicate OnRow(col: int) { 0 <= col < 80 }

  /** Byte i is one of the whole bytes written for row yy. */
  predicate SolidAt(x: int, yy: nat, w: nat, i: nat) {
    yy * 80 + FirstByte(x) <= i < yy * 80 + LastByte(x, w)
  }

  /** Byte i holds a visible pixel of row yy before or after the whole bytes. */
  predicate EdgeAt(x: int, yy: nat, w: nat, i: nat) {
    i / 80 == yy && ((HasLeft(x, w) && i % 80 == FirstByte(x) - 1) || (HasRight(x, w) && i % 80 == LastByte(x, w)))
  }

  /** The planes after a row whose shadow is s. */
  function SpillRow(planes: seq<seq<bv8>>, s: seq<bv8>, x: int, yy: nat, w: nat, c: bv8): (r: seq<seq<bv8>>)
    requires |planes| == 4 && (forall p :: 0 <= p < 4 ==> |planes[p]| == PLANE) && |s| == PIXELS
    ensures |r| == 4 && forall p :: 0 <= p < 4 ==> |r[p]| == PLANE
  {
    seq(4, p requires 0 <= p < 4 => seq(PLANE, i requires 0 <= i < PLANE =>
      if SolidAt(x, yy, w, i) then Solid(c, p)
      else if i < BYTES && EdgeAt(x, yy, w, i) then PlaneByte(s, i, p)
      else planes[p][i]))
  }

  /** The planes after the first h rows from y on; rows off the screen are skipped. */
  function SpillRows(planes: seq<seq<bv8>>, s: seq<bv8>, x: int, y: int, w: nat, h: nat, c: bv8): (r: seq<seq<bv8>>)
    requires |planes| == 4 && (forall p :: 0 <= p < 4 ==> |planes[p]| == PLANE) && |s| == PIXELS
    ensures |r| == 4 && forall p :: 0 <= p < 4 ==> |r[p]| == PLANE
  {
    if h == 0 then planes else
      var before := SpillRows(planes, s, x, y, w, h - 1, c);
      var yy := y + (h - 1);
      if 0 <= yy < HEIGHT then SpillRow(before, s, x, yy, w, c) else before
  }

  /** Something is written for every visible row. */
  predicate RowWrites(x: int, w: nat) {
    || WholeBytes(x, w) > 0
    || (HasLeft(x, w) && OnRow(FirstByte(x) - 1))
    || (HasRight(x, w) && OnRow(LastByte(x, w)))
  }

  /** VgaFillRect with the adapter on. */
  function SpillRect(d: Display, x: int, y: int, w: nat, h: nat, c: bv8): (d': Display)
    requires Valid(d)
    ensures Valid(d')
  {
    var s := FillShadow(d.shadow, x, y, w, h, c);
    Display(s, SpillRows(d.planes, s, x, y, w, h, c), if RowWrites(x, w) && Visible(y, w, h) then ALL_PLANES else d.mapMask)
  }

  /** The whole bytes of the row lie in the adapter's memory. */
  predicate RowInWindow(x: int, yy: nat, w: nat) {
    WholeBytes(x, w) > 0 ==> 0 <= yy * 80 + FirstByte(x) && yy * 80 + LastByte(x, w) <= PLANE
  }

  predicate InWindow(x: int, y: int, w: nat, h: nat) {
    forall yy: nat {:trigger RowInWindow(x, yy, w)} :: y <= yy < y + h && yy < HEIGHT ==> RowInWindow(x, yy, w)
  }

  /** Within the screen everything does. */
  lemma FitsWindow(x: nat, y: int, w: nat, h: nat)
    requires x + w <= WIDTH
    ensures InWindow(x, y, w, h)
  {
  }

  // ---- agreement ----------------------------------------------------------------------------------

  /** What the first h rows write last to byte i is a whole byte that belongs to another row. */
  predicate Foreign(x: int, y: int, w: nat, h: nat, i: nat) {
    h > 0 &&
    var yy := y + (h - 1);
    if 0 <= yy < HEIGHT && SolidAt(x, yy, w, i) then i / 80 != yy
    else if 0 <= yy < HEIGHT && EdgeAt(x, yy, w, i) then false
    else Foreign(x, y, w, h - 1, i)
  }

  predicate Writes(x: int, y: int, w: nat, k: int, i: nat) {
    0 <= y + k < HEIGHT && (SolidAt(x, y + k, w, i) || EdgeAt(x, y + k, w, i))
  }

  /** All pixels of byte i have the four bits of colour c. */
  predicate ShowsColour(s: seq<bv8>, i: nat, c: bv8)
    requires |s| == PIXELS && i < BYTES
  {
    forall b: nat, p: nat {:trigger Bit(PixelOf(s, i, b), p)} :: b < 8 && p < 4 ==> (Bit(PixelOf(s, i, b), p) <==> Bit(c, p))
  }

  lemma SolidIff(s: seq<bv8>, i: nat, c: bv8)
    requires |s| == PIXELS && i < BYTES
    ensures (forall p: nat {:trigger PlaneByte(s, i, p)} :: p < 4 ==> PlaneByte(s, i, p) == Solid(c, p)) <==> ShowsColour(s, i, c)
  {
    forall b: nat, p: nat | b < 8 && p < 4
      ensures Bit(PlaneByte(s, i, p), 7 - b) <==> Bit(PixelOf(s, i, b), p)
      ensures Bit(Solid(c, p), 7 - b) <==> Bit(c, p)
    {
      ByteBit(s, i, p, 7 - b);
      FullByte(7 - b);
      EmptyByte(7 - b);
    }
    if ShowsColour(s, i, c) {
      forall p: nat | p < 4 ensures PlaneByte(s, i, p) == Solid(c, p) {
        forall k: nat | k < 8 ensures Bit(PlaneByte(s, i, p), k) <==> Bit(Solid(c, p), k) {
          assert Bit(PixelOf(s, i, 7 - k), p) <==> Bit(c, p);
          assert 7 - (7 - k) == k;
        }
        SameBits(PlaneByte(s, i, p), Solid(c, p));
      }
    }
  }

  /** Some of the first h rows writes byte i. */
  predicate WrittenBy(x: int, y: int, w: nat, h: nat, i: nat) {
    h > 0 && (Writes(x, y, w, h - 1, i) || WrittenBy(x, y, w, h - 1, i))
  }

  lemma {:induction false} WrittenWhen(x: int, y: int, w: nat, h: nat, k: nat, i: nat)
    requires k < h && Writes(x, y, w, k, i)
    ensures WrittenBy(x, y, w, h, i)
    decreases h
  {
    if k < h - 1 {
      WrittenWhen(x, y, w, h - 1, k, i);
    }
  }

  /** A byte of the row itself holds pixels of the row alone. */
  lemma OwnByte(s0: seq<bv8>, x: int, y: int, w: nat, h: nat, c: bv8, i: nat, p: nat)
    requires |s0| == PIXELS && i < BYTES && p < 4 && y <= i / 80 < y + h && SolidAt(x, i / 80, w, i)
    ensures PlaneByte(FillShadow(s0, x, y, w, h, c), i, p) == Solid(c, p)
  {
    var s := FillShadow(s0, x, y, w, h, c);
    forall b: nat | b < 8 ensures PixelOf(s, i, b) == c {
      PixelOfByte(i, b);
    }
    SolidByte(s, i, p, c);
  }

  /** A byte none of whose rows is written keeps its pixels. */
  lemma UnwrittenByte(s0: seq<bv8>, x: int, y: int, w: nat, h: nat, c: bv8, i: nat, p: nat)
    requires |s0| == PIXELS && i < BYTES && p < 4 && !WrittenBy(x, y, w, h, i)
    ensures PlaneByte(FillShadow(s0, x, y, w, h, c), i, p) == PlaneByte(s0, i, p)
  {
    var s := FillShadow(s0, x, y, w, h, c);
    forall b: nat | b < 8 ensures PixelOf(s0, i, b) == PixelOf(s, i, b) {
      PixelOfByte(i, b);
      if InRect(x, y, w, h, i % 80 * 8 + b, i / 80) {
        PixelWritten(x, w, i % 80 * 8 + b, i);
        WrittenWhen(x, y, w, h, i / 80 - y, i);
      }
    }
    PlaneByteLocal(s0, s, i, p);
  }

  lemma PixelWritten(x: int, w: nat, px: int, i: nat)
    requires x <= px < x + w && px / 8 == i % 80
    ensures SolidAt(x, i / 80, w, i) || EdgeAt(x, i / 80, w, i)
  {
  }

  /** What each visible byte holds after the first k rows: the whole byte of another row, or what the
      shadow wants, or what it held. */
  lemma {:induction false} SpillByte(planes: seq<seq<bv8>>, s0: seq<bv8>, x: int, y: int, w: nat, h: nat, k: nat, c: bv8, i: nat, p: nat)
    requires |planes| == 4 && (forall p :: 0 <= p < 4 ==> |planes[p]| == PLANE) && |s0| == PIXELS
    requires i < BYTES && p < 4 && k <= h
    ensures var s := FillShadow(s0, x, y, w, h, c);
      SpillRows(planes, s, x, y, w, k, c)[p][i] ==
        if Foreign(x, y, w, k, i) then Solid(c, p) else if WrittenBy(x, y, w, k, i) then PlaneByte(s, i, p) else planes[p][i]
    decreases k
  {
    if k > 0 {
      SpillByte(planes, s0, x, y, w, h, k - 1, c, i, p);
      var yy := y + (k - 1);
      if 0 <= yy < HEIGHT && SolidAt(x, yy, w, i) && i / 80 == yy {
        OwnByte(s0, x, y, w, h, c, i, p);
      }
    }
  }

  predicate AllPlanesAgree(d: Display, i: nat)
    requires Valid(d) && i < BYTES
  {
    forall p: nat {:trigger ByteAgrees(d, i, p)} :: p < 4 ==> ByteAgrees(d, i, p)
  }

  lemma ByteAfterSpill(d: Display, x: int, y: int, w: nat, h: nat, c: bv8, i: nat)
    requires Agree(d) && i < BYTES
    ensures var d' := SpillRect(d, x, y, w, h, c);
      AllPlanesAgree(d', i) <==> (Foreign(x, y, w, h, i) ==> ShowsColour(d'.shadow, i, c))
  {
    var d' := SpillRect(d, x, y, w, h, c);
    forall p: nat | p < 4
      ensures ByteAgrees(d', i, p) <==> (Foreign(x, y, w, h, i) ==> PlaneByte(d'.shadow, i, p) == Solid(c, p))
    {
      SpillByte(d.planes, d.shadow, x, y, w, h, h, c, i, p);
      if !WrittenBy(x, y, w, h, i) {
        UnwrittenByte(d.shadow, x, y, w, h, c, i, p);
        assert ByteAgrees(d, i, p);
      }
    }
    SolidIff(d'.shadow, i, c);
    assert AllPlanesAgree(d', i) <==> forall p: nat {:trigger ByteAgrees(d', i, p)} :: p < 4 ==> ByteAgrees(d', i, p);
    if AllPlanesAgree(d', i) && Foreign(x, y, w, h, i) {
      forall p: nat | p < 4 ensures PlaneByte(d'.shadow, i, p) == Solid(c, p) {
        assert ByteAgrees(d', i, p);
      }
    }
  }

  /** Another row's whole byte fell on byte i and stayed, and is not what the shadow s wants. */
  predicate Spoilt(s: seq<bv8>, x: int, y: int, w: nat, h: nat, c: bv8, i: nat)
    requires |s| == PIXELS && i < BYTES
  {
    Foreign(x, y, w, h, i) && !ShowsColour(s, i, c)
  }

  lemma AgreeByBytes(d: Display, bad: set<nat>)
    requires Valid(d) && forall i: nat {:trigger AllPlanesAgree(d, i)} :: i < BYTES ==> (AllPlanesAgree(d, i) <==> i !in bad)
    ensures Agree(d) <==> forall i: nat :: i < BYTES ==> i !in bad
  {
    if Agree(d) {
      forall i: nat | i < BYTES ensures i !in bad {
        assert AllPlanesAgree(d, i);
      }
    } else {
      var i: nat, p: nat :| i < BYTES && p < 4 && !ByteAgrees(d, i, p);
      assert !AllPlanesAgree(d, i);
    }
  }

  /** The exact condition for planes and shadow to agree after a fill, wherever the rectangle is: every
      visible byte on which another row's whole bytes fall, and stay, shows the colour's four bits. */
  lemma SpillAgreesIff(d: Display, x: int, y: int, w: nat, h: nat, c: bv8)
    requires Agree(d)
    ensures var s := FillShadow(d.shadow, x, y, w, h, c);
      Agree(SpillRect(d, x, y, w, h, c)) <==> forall i: nat {:trigger Spoilt(s, x, y, w, h, c, i)} :: i < BYTES ==> !Spoilt(s, x, y, w, h, c, i)
  {
    var s, d' := FillShadow(d.shadow, x, y, w, h, c), SpillRect(d, x, y, w, h, c);
    var bad := set i: nat | i < BYTES && Spoilt(s, x, y, w, h, c, i);
    forall i: nat | i < BYTES ensures AllPlanesAgree(d', i) <==> i !in bad {
      ByteAfterSpill(d, x, y, w, h, c, i);
    }
    AgreeByBytes(d', bad);
    if j: nat :| j < BYTES && j in bad {
      assert Spoilt(s, x, y, w, h, c, j);
    } else {
      forall i: nat | i < BYTES ensures !Spoilt(s, x, y, w, h, c, i) {
        assert i !in bad;
      }
    }
  }

  /** No byte is foreign when the rectangle is within the screen's columns. */
  lemma {:induction false} FitsNoForeign(x: nat, y: int, w: nat, h: nat, i: nat)
    requires x + w <= WIDTH
    ensures !Foreign(x, y, w, h, i)
    decreases h
  {
    if h > 0 {
      FitsNoForeign(x, y, w, h - 1, i);
    }
  }

  /** Within the screen's columns a row writes exactly the bytes that hold its pixels. */
  lemma FitsWrites(x: nat, y: int, w: nat, k: nat, i: nat)
    requires x + w <= WIDTH && i < BYTES
    ensures Writes(x, y, w, k, i) <==> w > 0 && i / 80 == y + k && x / 8 <= i % 80 <= (x + w - 1) / 8
  {
  }

  lemma {:induction false} FitsWritten(x: nat, y: int, w: nat, h: nat, i: nat)
    requires x + w <= WIDTH && i < BYTES
    ensures WrittenBy(x, y, w, h, i) <==> Touches(x, y, w, h, i)
    decreases h
  {
    if h > 0 {
      FitsWritten(x, y, w, h - 1, i);
      FitsWrites(x, y, w, h - 1, i);
    }
  }

  lemma {:induction false} FitsBeyond(planes: seq<seq<bv8>>, s: seq<bv8>, x: nat, y: int, w: nat, h: nat, c: bv8, i: nat, p: nat)
    requires |planes| == 4 && (forall p :: 0 <= p < 4 ==> |planes[p]| == PLANE) && |s| == PIXELS
    requires x + w <= WIDTH && BYTES <= i < PLANE && p < 4
    ensures SpillRows(planes, s, x, y, w, h, c)[p][i] == planes[p][i]
    decreases h
  {
    if h > 0 {
      FitsBeyond(planes, s, x, y, w, h - 1, c, i, p);
    }
  }

  lemma FitsMask(x: nat, w: nat)
    requires 0 < w && x + w <= WIDTH
    ensures RowWrites(x, w)
  {
  }

  /** Within the screen's columns the fill is the drawing of every pixel of the rectangle. */
  lemma SpillFits(d: Display, x: nat, y: int, w: nat, h: nat, c: bv8)
    requires Valid(d) && x + w <= WIDTH
    ensures SpillRect(d, x, y, w, h, c) == RectPixels(d, x, y, w, h, c)
  {
    var d' := SpillRect(d, x, y, w, h, c);
    forall p: nat, i: nat | p < 4 && i < PLANE ensures RepairedAt(d.planes, d'.planes, d'.shadow, Touched(x, y, w, h), p, i) {
      if i < BYTES {
        SpillByte(d.planes, d.shadow, x, y, w, h, h, c, i, p);
        FitsNoForeign(x, y, w, h, i);
        FitsWritten(x, y, w, h, i);
      } else {
        FitsBeyond(d.planes, d'.shadow, x, y, w, h, c, i, p);
      }
    }
    if w > 0 {
      FitsMask(x, w);
    }
    RectDrawn(d, x, y, w, h, c);
    DrawnUnique(d, d', RectPixels(d, x, y, w, h, c), x, y, w, h, c);
  }

  /** Eight pixels just left of the screen, on a black screen: the byte falls on the end of the row above,
      and shadow and planes no longer agree. */
  lemma SpillBreaks(d: Display)
    requires Agree(d) && forall q :: 0 <= q < PIXELS ==> d.shadow[q] == 0
    ensures InWindow(-8, 1, 8, 1) && !Agree(SpillRect(d, -8, 1, 8, 1, 1))
  {
    SpillAgreesIff(d, -8, 1, 8, 1, 1);
    var s := FillShadow(d.shadow, -8, 1, 8, 1, 1);
    EmptyByte(0);
    SetBit(0, 0, 0);
    assert PixelOf(s, 79, 0) == 0 && !Bit(0, 0) && Bit(1, 0);
    assert SolidAt(-8, 1, 8, 79) && Foreign(-8, 1, 8, 1, 79);
    assert Spoilt(s, -8, 1, 8, 1, 1, 79);
  }

  // ---- step by step -------------------------------------------------------------------------------

  function Colour(s: seq<bv8>, x: int, y: int): bv8
    requires |s| == PIXELS && OnScreen(x, y)
  {
    s[Index(x, y)]
  }

  /** The pixels of a row from one column to another have colour c, as far as they are on screen. */
  predicate RowIs(s: seq<bv8>, from: int, to: int, yy: nat, c: bv8) {
    |s| == PIXELS && yy < HEIGHT && forall px {:trigger Colour(s, px, yy)} :: from <= px < to && 0 <= px < WIDTH ==> Colour(s, px, yy) == c
  }

  predicate RowsAre(s: seq<bv8>, from: int, to: int, y: int, h: nat, c: bv8) {
    forall yy: nat {:trigger RowIs(s, from, to, yy, c)} :: y <= yy < y + h && yy < HEIGHT ==> RowIs(s, from, to, yy, c)
  }

  lemma FilledRows(s: seq<bv8>, x: int, to: int, y: int, w: nat, h: nat, c: bv8)
    requires |s| == PIXELS && to == x + w
    ensures RowsAre(FillShadow(s, x, y, w, h, c), x, to, y, h, c)
  {
  }

  /** The byte in column col of a row is rewritten, if it is on screen and anything is. */
  function EdgeDone(planes: seq<seq<bv8>>, s: seq<bv8>, col: int, yy: nat, done: bool): (r: seq<seq<bv8>>)
    requires |planes| == 4 && (forall p :: 0 <= p < 4 ==> |planes[p]| == PLANE) && |s| == PIXELS
    ensures |r| == 4 && forall p :: 0 <= p < 4 ==> |r[p]| == PLANE
  {
    if done && OnRow(col) then Repair(planes, s, {yy * 80 + col}) else planes
  }

  /** One more pixel of that byte, in a row whose shadow is right already. */
  lemma EdgeNext(planes: seq<seq<bv8>>, d: Display, px: int, col: int, yy: nat, done: bool, c: bv8)
    requires |planes| == 4 && (forall p :: 0 <= p < 4 ==> |planes[p]| == PLANE)
    requires Valid(d) && RowIs(d.shadow, px, px + 1, yy, c) && px / 8 == col && d.planes == EdgeDone(planes, d.shadow, col, yy, done)
    ensures var d' := VgaDrawing.PutPixel(d, px, yy, c);
      && d'.shadow == d.shadow && d'.planes == EdgeDone(planes, d.shadow, col, yy, true)
      && d'.mapMask == if OnRow(col) then 0x0F else d.mapMask
  {
    if OnScreen(px, yy) {
      assert Colour(d.shadow, px, yy) == c;
      var d' := VgaDrawing.PutPixel(d, px, yy, c);
      assert d'.shadow == d.shadow && Index(px, yy) / 8 == yy * 80 + col;
      if done {
        var t := {yy * 80 + col};
        RepairedTwice(planes, d.planes, d'.planes, d.shadow, d.shadow, t, t);
        assert t + t == t;
        RepairedUnique(planes, d'.planes, Repair(planes, d.shadow, t), d.shadow, t);
      }
    }
  }

  /** The whole bytes of a row written to all planes. */
  predicate SolidsDone(before: seq<seq<bv8>>, after: seq<seq<bv8>>, x: int, yy: nat, w: nat, c: bv8) {
    && |before| == |after| == 4 && (forall p :: 0 <= p < 4 ==> |before[p]| == |after[p]| == PLANE)
    && forall p: nat, i: nat {:trigger after[p][i]} :: p < 4 && i < PLANE ==>
         after[p][i] == if SolidAt(x, yy, w, i) then Solid(c, p) else before[p][i]
  }

  lemma EdgeValue(planes: seq<seq<bv8>>, s: seq<bv8>, col: int, yy: nat, done: bool, p: nat, i: nat)
    requires |planes| == 4 && (forall p :: 0 <= p < 4 ==> |planes[p]| == PLANE) && |s| == PIXELS && yy < HEIGHT && p < 4 && i < PLANE
    ensures EdgeDone(planes, s, col, yy, done)[p][i] ==
            if done && i < BYTES && i / 80 == yy && i % 80 == col then PlaneByte(s, i, p) else planes[p][i]
  {
    if done && OnRow(col) {
      assert RepairedAt(planes, EdgeDone(planes, s, col, yy, done), s, {yy * 80 + col}, p, i);
    }
  }

  /** Left pixels, whole bytes and right pixels make the row. */
  lemma RowComposed(planes: seq<seq<bv8>>, p1: seq<seq<bv8>>, p2: seq<seq<bv8>>, s: seq<bv8>, x: int, yy: nat, w: nat, c: bv8)
    requires |planes| == 4 && (forall p :: 0 <= p < 4 ==> |planes[p]| == PLANE) && |s| == PIXELS && yy < HEIGHT
    requires p1 == EdgeDone(planes, s, FirstByte(x) - 1, yy, HasLeft(x, w)) && SolidsDone(p1, p2, x, yy, w, c)
    ensures EdgeDone(p2, s, LastByte(x, w), yy, HasRight(x, w)) == SpillRow(planes, s, x, yy, w, c)
  {
    var p3, r := EdgeDone(p2, s, LastByte(x, w), yy, HasRight(x, w)), SpillRow(planes, s, x, yy, w, c);
    forall p: nat | p < 4 ensures p3[p] == r[p] {
      forall i: nat | i < PLANE ensures p3[p][i] == r[p][i] {
        EdgeValue(planes, s, FirstByte(x) - 1, yy, HasLeft(x, w), p, i);
        EdgeValue(p2, s, LastByte(x, w), yy, HasRight(x, w), p, i);
      }
    }
  }
}
