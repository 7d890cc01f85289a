/** Drawing on the display, on values: single pixels, and rectangles pixel by pixel. */
module VgaDrawing {
  import opened Bits
  import opened VgaDisplay

  const ALL_PLANES: bv8 := 0x0F

  /** Rewrites the touched bytes of all planes from the shadow. */
  function Repair(planes: seq<seq<bv8>>, shadow: seq<bv8>, touched: set<nat>): (r: seq<seq<bv8>>)
    requires |planes| == 4 && (forall p :: 0 <= p < 4 ==> |planes[p]| == PLANE) && |shadow| == PIXELS
    ensures Repaired(planes, r, shadow, touched)
  {
    var r := seq(4, p requires 0 <= p < 4 => seq(PLANE, i requires 0 <= i < PLANE =>
      if i in touched && i < BYTES then PlaneByte(shadow, i, p) else planes[p][i]));
    assert forall p: nat, i: nat {:trigger RepairedAt(planes, r, shadow, touched, p, i)} ::
      p < 4 && i < PLANE ==> RepairedAt(planes, r, shadow, touched, p, i);
    r
  }

  /** VgaPutPixel */
  function PutPixel(d: Display, x: int, y: int, c: bv8): (d': Display)
    requires Valid(d)
    ensures Valid(d')
  {
    if !OnScreen(x, y) then d else
      var s := d.shadow[Index(x, y) := c];
      Display(s, Repair(d.planes, s, {Index(x, y) / 8}), ALL_PLANES)
  }

  /** n pixels of a row, from the left. */
  function RowPixels(d: Display, x: int, y: int, n: nat, c: bv8): (d': Display)
    requires Valid(d)
    ensures Valid(d')
  {
    if n == 0 then d else PutPixel(RowPixels(d, x, y, n - 1, c), x + n - 1, y, c)
  }

  /** A rectangle, row by row and pixel by pixel. */
  function RectPixels(d: Display, x: int, y: int, w: nat, h: nat, c: bv8): (d': Display)
    requires Valid(d)
    ensures Valid(d')
  {
    if h == 0 then d else RowPixels(RectPixels(d, x, y, w, h - 1, c), x, y + h - 1, w, c)
  }

  // ---- what a rectangle does --------------------------------------------------------------------

  predicate InRect(x: int, y: int, w: nat, h: nat, px: int, py: int) {
    x <= px < x + w && y <= py < y + h
  }

  /** The shadow with a rectangle, clipped to the screen. */
  function FillShadow(s: seq<bv8>, x: int, y: int, w: nat, h: nat, c: bv8): (r: seq<bv8>)
    requires |s| == PIXELS
    ensures |r| == PIXELS
  {
    seq(PIXELS, q requires 0 <= q < PIXELS => if InRect(x, y, w, h, q % WIDTH, q / WIDTH) then c else s[q])
  }

  /** No pixel of an untouched byte changes. */
  lemma FillOutside(s: seq<bv8>, x: nat, y: int, w: nat, h: nat, c: bv8)
    requires |s| == PIXELS && x + w <= WIDTH
    ensures forall q :: 0 <= q < PIXELS && q / 8 !in Touched(x, y, w, h) ==> FillShadow(s, x, y, w, h, c)[q] == s[q]
  {
    forall q | 0 <= q < PIXELS && q / 8 !in Touched(x, y, w, h) ensures FillShadow(s, x, y, w, h, c)[q] == s[q] {
      assert Index(q % WIDTH, q / WIDTH) == q;
    }
  }

  /** The bytes that hold a pixel of the rectangle. */
  predicate Touches(x: nat, y: int, w: nat, h: nat, i: nat) {
    w > 0 && y <= i / 80 < y + h && x / 8 <= i % 80 <= (x + w - 1) / 8
  }

  function Touched(x: nat, y: int, w: nat, h: nat): set<nat> {
    set i: nat | i < BYTES && Touches(x, y, w, h, i)
  }

  /** Some row of the rectangle is on screen. */
  predicate Visible(y: int, w: nat, h: nat) { w > 0 && h > 0 && y < HEIGHT && y + h > 0 }

  /** The rectangle is in the shadow, its bytes are rewritten, and all planes are selected again. */
  predicate Drawn(d: Display, d': Display, x: nat, y: int, w: nat, h: nat, c: bv8) {
    && Valid(d) && Valid(d') && d'.shadow == FillShadow(d.shadow, x, y, w, h, c)
    && Repaired(d.planes, d'.planes, d'.shadow, Touched(x, y, w, h))
    && d'.mapMask == if Visible(y, w, h) then 0x0F else d.mapMask
  }

  lemma DrawnUnique(d: Display, a: Display, b: Display, x: nat, y: int, w: nat, h: nat, c: bv8)
    requires Drawn(d, a, x, y, w, h, c) && Drawn(d, b, x, y, w, h, c)
    ensures a == b
  {
    RepairedUnique(d.planes, a.planes, b.planes, a.shadow, Touched(x, y, w, h));
  }

  lemma DrawnNothing(d: Display, x: nat, y: int, w: nat, h: nat, c: bv8)
    requires Valid(d) && !Visible(y, w, h)
    ensures Drawn(d, d, x, y, w, h, c)
  {
    assert Touched(x, y, w, h) == {};
    forall p: nat, i: nat | p < 4 && i < PLANE ensures RepairedAt(d.planes, d.planes, d.shadow, {}, p, i) { }
  }

  /** One more pixel on the right. */
  lemma TouchedNext(x: nat, y: int, n: nat)
    requires 0 <= y < HEIGHT && x + n < WIDTH
    ensures Touched(x, y, n + 1, 1) == Touched(x, y, n, 1) + {Index(x + n, y) / 8}
  {
    var j := Index(x + n, y) / 8;
    forall i: nat ensures i in Touched(x, y, n + 1, 1) <==> i in Touched(x, y, n, 1) || i == j { }
  }

  lemma RowNext(d: Display, d': Display, x: nat, y: int, n: nat, c: bv8)
    requires Drawn(d, d', x, y, n, 1, c) && x + n < WIDTH
    ensures Drawn(d, PutPixel(d', x + n, y, c), x, y, n + 1, 1, c)
  {
    if 0 <= y < HEIGHT {
      var q := Index(x + n, y);
      var r := PutPixel(d', x + n, y, c);
      TouchedNext(x, y, n);
      RepairedTwice(d.planes, d'.planes, r.planes, d'.shadow, r.shadow, Touched(x, y, n, 1), {q / 8});
      assert r.shadow == FillShadow(d.shadow, x, y, n + 1, 1, c);
    } else {
      DrawnNothing(d, x, y, n + 1, 1, c);
      DrawnNothing(d, x, y, n, 1, c);
      DrawnUnique(d, d', d, x, y, n, 1, c);
    }
  }

  lemma {:induction false} RowDrawn(d: Display, x: nat, y: int, n: nat, c: bv8)
    requires Valid(d) && x + n <= WIDTH
    ensures Drawn(d, RowPixels(d, x, y, n, c), x, y, n, 1, c)
    decreases n
  {
    if n == 0 {
      DrawnNothing(d, x, y, 0, 1, c);
    } else {
      RowDrawn(d, x, y, n - 1, c);
      RowNext(d, RowPixels(d, x, y, n - 1, c), x, y, n - 1, c);
    }
  }

  /** One more row at the bottom. */
  lemma RectNext(d: Display, d1: Display, d2: Display, x: nat, y: int, w: nat, h: nat, c: bv8)
    requires Drawn(d, d1, x, y, w, h, c) && Drawn(d1, d2, x, y + h, w, 1, c) && x + w <= WIDTH
    ensures Drawn(d, d2, x, y, w, h + 1, c)
  {
    var t, t' := Touched(x, y, w, h), Touched(x, y + h, w, 1);
    forall i: nat ensures i in Touched(x, y, w, h + 1) <==> i in t || i in t' { }
    assert Touched(x, y, w, h + 1) == t + t';
    FillOutside(d1.shadow, x, y + h, w, 1, c);
    RepairedTwice(d.planes, d1.planes, d2.planes, d1.shadow, d2.shadow, t, t');
    assert d2.shadow == FillShadow(d.shadow, x, y, w, h + 1, c);
  }

  /** What filling a rectangle pixel by pixel amounts to. */
  lemma {:induction false} RectDrawn(d: Display, x: nat, y: int, w: nat, h: nat, c: bv8)
    requires Valid(d) && x + w <= WIDTH
    ensures Drawn(d, RectPixels(d, x, y, w, h, c), x, y, w, h, c)
    decreases h
  {
    if h == 0 {
      DrawnNothing(d, x, y, w, 0, c);
    } else {
      RectDrawn(d, x, y, w, h - 1, c);
      var d1 := RectPixels(d, x, y, w, h - 1, c);
      RowDrawn(d1, x, y + (h - 1), w, c);
      RectNext(d, d1, RowPixels(d1, x, y + (h - 1), w, c), x, y, w, h - 1, c);
    }
  }
}
