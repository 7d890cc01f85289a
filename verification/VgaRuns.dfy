/** Whole runs of drawing: what the adapter shows is what was drawn last. */
module VgaRuns {
  import opened Bits
  import opened VgaDisplay
  import opened VgaDrawing
  import opened Bresenham

  /** The first n points of a line, plotted one after the other. */
  function LinePixels(d: Display, x1: int, y1: int, x2: int, y2: int, n: nat, c: bv8): (d': Display)
    requires Valid(d)
    ensures Valid(d')
    decreases n
  {
    if n == 0 then d else
      var (x, y) := Point(x1, y1, x2, y2, n - 1);
      PutPixel(LinePixels(d, x1, y1, x2, y2, n - 1, c), x, y, c)
  }

  function Length(x1: int, y1: int, x2: int, y2: int): nat { Max(Magnitude(x2 - x1), Magnitude(y2 - y1)) + 1 }

  datatype Stroke =
    | Pixel(x: int, y: int, c: bv8)
    | Whole(c: bv8)
    | Rect(left: nat, top: int, w: nat, h: nat, c: bv8)
    | Line(x1: int, y1: int, x2: int, y2: int, c: bv8)

  /** A rectangle must not reach past the right edge; anything else is clipped. */
  predicate Fits(s: Stroke) { s.Rect? ==> s.left + s.w <= WIDTH }

  function Paint(d: Display, s: Stroke): (d': Display)
    requires Valid(d)
    ensures Valid(d')
  {
    match s
    case Pixel(x, y, c) => PutPixel(d, x, y, c)
    case Whole(c) => RectPixels(d, 0, 0, WIDTH, HEIGHT, c)
    case Rect(x, y, w, h, c) => RectPixels(d, x, y, w, h, c)
    case Line(x1, y1, x2, y2, c) => LinePixels(d, x1, y1, x2, y2, Length(x1, y1, x2, y2), c)
  }

  predicate OnLine(x1: int, y1: int, x2: int, y2: int, n: nat, px: int, py: int) {
    exists k: nat {:trigger Point(x1, y1, x2, y2, k)} :: k < n && Point(x1, y1, x2, y2, k) == (px, py)
  }

  predicate Covers(s: Stroke, px: int, py: int) {
    match s
    case Pixel(x, y, _) => (x, y) == (px, py)
    case Whole(_) => true
    case Rect(x, y, w, h, _) => InRect(x, y, w, h, px, py)
    case Line(x1, y1, x2, y2, _) => OnLine(x1, y1, x2, y2, Length(x1, y1, x2, y2), px, py)
  }

  // ---- one stroke -----------------------------------------------------------------------------

  lemma PutPixelAt(d: Display, x: int, y: int, c: bv8, px: int, py: int)
    requires Valid(d) && OnScreen(px, py)
    ensures PutPixel(d, x, y, c).shadow[Index(px, py)] == if (x, y) == (px, py) then c else d.shadow[Index(px, py)]
    ensures Agree(d) ==> Agree(PutPixel(d, x, y, c))
  {
    if OnScreen(x, y) && Agree(d) {
      RepairedAgrees(d, PutPixel(d, x, y, c), {Index(x, y) / 8});
    }
  }

  lemma {:induction false} LineAt(d: Display, x1: int, y1: int, x2: int, y2: int, n: nat, c: bv8, px: int, py: int)
    requires Valid(d) && OnScreen(px, py)
    ensures LinePixels(d, x1, y1, x2, y2, n, c).shadow[Index(px, py)] ==
            if OnLine(x1, y1, x2, y2, n, px, py) then c else d.shadow[Index(px, py)]
    ensures Agree(d) ==> Agree(LinePixels(d, x1, y1, x2, y2, n, c))
    decreases n
  {
    if n > 0 {
      LineAt(d, x1, y1, x2, y2, n - 1, c, px, py);
      var (x, y) := Point(x1, y1, x2, y2, n - 1);
      PutPixelAt(LinePixels(d, x1, y1, x2, y2, n - 1, c), x, y, c, px, py);
    }
  }

  lemma RectAt(d: Display, x: nat, y: int, w: nat, h: nat, c: bv8, px: int, py: int)
    requires Valid(d) && x + w <= WIDTH && OnScreen(px, py)
    ensures RectPixels(d, x, y, w, h, c).shadow[Index(px, py)] ==
            if InRect(x, y, w, h, px, py) then c else d.shadow[Index(px, py)]
    ensures Agree(d) ==> Agree(RectPixels(d, x, y, w, h, c))
  {
    RectDrawn(d, x, y, w, h, c);
    var d' := RectPixels(d, x, y, w, h, c);
    if Agree(d) {
      FillOutside(d.shadow, x, y, w, h, c);
      RepairedAgrees(d, d', Touched(x, y, w, h));
    }
  }

  /** Clearing the screen makes planes and shadow agree, whatever they held. */
  lemma ClearAgrees(d: Display, c: bv8)
    requires Valid(d)
    ensures Agree(RectPixels(d, 0, 0, WIDTH, HEIGHT, c))
  {
    RectDrawn(d, 0, 0, WIDTH, HEIGHT, c);
    var d' := RectPixels(d, 0, 0, WIDTH, HEIGHT, c);
    forall i: nat, p: nat | i < BYTES && p < 4 ensures ByteAgrees(d', i, p) {
      assert RepairedAt(d.planes, d'.planes, d'.shadow, Touched(0, 0, WIDTH, HEIGHT), p, i);
      assert i in Touched(0, 0, WIDTH, HEIGHT);
    }
  }

  /** A stroke colours exactly the pixels it covers, and keeps planes and shadow in agreement. */
  lemma PaintAt(d: Display, s: Stroke, px: int, py: int)
    requires Valid(d) && Fits(s) && OnScreen(px, py)
    ensures Paint(d, s).shadow[Index(px, py)] == if Covers(s, px, py) then s.c else d.shadow[Index(px, py)]
    ensures Agree(d) || s.Whole? ==> Agree(Paint(d, s))
  {
    match s
    case Pixel(x, y, c) => PutPixelAt(d, x, y, c, px, py);
    case Whole(c) => RectAt(d, 0, 0, WIDTH, HEIGHT, c, px, py); ClearAgrees(d, c);
    case Rect(x, y, w, h, c) => RectAt(d, x, y, w, h, c, px, py);
    case Line(x1, y1, x2, y2, c) => LineAt(d, x1, y1, x2, y2, Length(x1, y1, x2, y2), c, px, py);
  }

  // ---- the map mask ---------------------------------------------------------------------------

  /** The mask selects the four planes there are, and no more. */
  predicate SelectsAll(mask: bv8) { forall p: nat {:trigger Bit(mask, p)} :: p < 8 ==> (Bit(mask, p) <==> p < 4) }

  lemma AllSelected()
    ensures SelectsAll(0x0F)
  {
    forall p: nat | p < 8 ensures Bit(0x0F, p) <==> p < 4 {
      match p { case 0 => case 1 => case 2 => case 3 => case 4 => case 5 => case 6 => case _ => }
    }
  }

  lemma {:induction false} LineMask(d: Display, x1: int, y1: int, x2: int, y2: int, n: nat, c: bv8, px: int, py: int)
    requires Valid(d) && OnScreen(px, py)
    ensures var mask := LinePixels(d, x1, y1, x2, y2, n, c).mapMask;
      (mask == d.mapMask || mask == 0x0F) && (OnLine(x1, y1, x2, y2, n, px, py) ==> mask == 0x0F)
    decreases n
  {
    if n > 0 {
      LineMask(d, x1, y1, x2, y2, n - 1, c, px, py);
    }
  }

  /** A stroke that covers a pixel of the screen leaves all four planes selected; one that does not, leaves
      them so when they were. */
  lemma PaintMask(d: Display, s: Stroke, px: int, py: int)
    requires Valid(d) && Fits(s) && OnScreen(px, py)
    ensures SelectsAll(d.mapMask) || Covers(s, px, py) ==> SelectsAll(Paint(d, s).mapMask)
  {
    AllSelected();
    match s
    case Pixel(x, y, c) =>
    case Whole(c) => RectDrawn(d, 0, 0, WIDTH, HEIGHT, c);
    case Rect(x, y, w, h, c) => RectDrawn(d, x, y, w, h, c);
    case Line(x1, y1, x2, y2, c) => LineMask(d, x1, y1, x2, y2, Length(x1, y1, x2, y2), c, px, py);
  }

  // ---- runs -----------------------------------------------------------------------------------

  function PaintAll(d: Display, ss: seq<Stroke>, n: nat): (d': Display)
    requires Valid(d) && n <= |ss|
    ensures Valid(d')
    decreases n
  {
    if n == 0 then d else Paint(PaintAll(d, ss, n - 1), ss[n - 1])
  }

  /** The colour of the last of the first n strokes that covers a pixel; c when none does. */
  function LastColour(ss: seq<Stroke>, n: nat, px: int, py: int, c: bv8): bv8
    requires n <= |ss|
    decreases n
  {
    if n == 0 then c else if Covers(ss[n - 1], px, py) then ss[n - 1].c else LastColour(ss, n - 1, px, py, c)
  }

  /** In any run of drawing that begins by clearing the screen, every pixel of the shadow has the colour
      of the last stroke that covers it, and the four planes show that colour. */
  lemma {:induction false} LastStrokeShows(d: Display, ss: seq<Stroke>, n: nat, px: int, py: int)
    requires Valid(d) && 0 < n <= |ss| && ss[0].Whole? && OnScreen(px, py)
    requires forall s :: s in ss ==> Fits(s)
    ensures var d', c := PaintAll(d, ss, n), LastColour(ss, n, px, py, ss[0].c);
      && Agree(d') && d'.shadow[Index(px, py)] == c
      && (forall p :: 0 <= p < 4 ==> (Bit(d'.planes[p][py * 80 + px / 8], 7 - px % 8) <==> Bit(c, p)))
      && SelectsAll(d'.mapMask)
    decreases n
  {
    PaintMask(PaintAll(d, ss, n - 1), ss[n - 1], px, py);
    if n > 1 {
      LastStrokeShows(d, ss, n - 1, px, py);
    }
    PaintAt(PaintAll(d, ss, n - 1), ss[n - 1], px, py);
    ShadowShown(PaintAll(d, ss, n), px, py);
  }

  // ---- with the adapter off ---------------------------------------------------------------------

  /** A pixel already shows colour c. */
  predicate Already(s: seq<bv8>, c: bv8, px: nat, py: nat, p: nat)
    requires |s| == PIXELS && px < WIDTH && py < HEIGHT && p < 4
  {
    Bit(s[Index(px, py)], p) <==> Bit(c, p)
  }

  /** VgaFillRect fills the shadow even when there is no adapter to follow it: planes and shadow then
      still agree exactly when every visible pixel of the rectangle had the colour's four bits before. */
  lemma OffFillAgreesIff(d: Display, x: int, y: int, w: nat, h: nat, c: bv8)
    requires Agree(d)
    ensures Agree(d.(shadow := FillShadow(d.shadow, x, y, w, h, c))) <==>
      forall px: nat, py: nat, p: nat {:trigger Already(d.shadow, c, px, py, p)} ::
        px < WIDTH && py < HEIGHT && p < 4 && InRect(x, y, w, h, px, py) ==> Already(d.shadow, c, px, py, p)
  {
    var d' := d.(shadow := FillShadow(d.shadow, x, y, w, h, c));
    AgreeIffPixels(d);
    AgreeIffPixels(d');
    forall px: nat, py: nat, p: nat | px < WIDTH && py < HEIGHT && p < 4
      ensures PixelAgrees(d', px, py, p) <==> InRect(x, y, w, h, px, py) ==> Already(d.shadow, c, px, py, p)
    {
      assert PixelAgrees(d, px, py, p);
      OffFillPixel(d, x, y, w, h, c, px, py, p);
    }
  }

  lemma OffFillPixel(d: Display, x: int, y: int, w: nat, h: nat, c: bv8, px: nat, py: nat, p: nat)
    requires Valid(d) && px < WIDTH && py < HEIGHT && p < 4 && PixelAgrees(d, px, py, p)
    ensures var d' := d.(shadow := FillShadow(d.shadow, x, y, w, h, c));
      PixelAgrees(d', px, py, p) <==> InRect(x, y, w, h, px, py) ==> Already(d.shadow, c, px, py, p)
  {
    assert FillShadow(d.shadow, x, y, w, h, c)[Index(px, py)] ==
      if InRect(x, y, w, h, px, py) then c else d.shadow[Index(px, py)];
  }

  /** A black screen. */
  function Blank(): (d: Display)
    ensures Valid(d)
  {
    Display(seq(PIXELS, _ => 0), seq(4, _ => seq(PLANE, _ => 0)), ALL_PLANES)
  }

  /** One pixel filled without a device is enough: shadow and planes agreed, and no longer do. */
  lemma OffFillBreaks(px: nat, py: nat)
    requires OnScreen(px, py)
    ensures Agree(Blank()) && !Agree(Blank().(shadow := FillShadow(Blank().shadow, px, py, 1, 1, 1)))
  {
    var d := Blank();
    forall i: nat, p: nat | i < BYTES && p < 4 ensures ByteAgrees(d, i, p) {
      EmptyByte(p);
      SolidByte(d.shadow, i, p, 0);
    }
    OffFillAgreesIff(d, px, py, 1, 1, 1);
    EmptyByte(0);
    SetBit(0, 0, 0);
    assert !Already(d.shadow, 1, px, py, 0);
  }
}
