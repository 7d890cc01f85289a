/**
 The 640x480 planar display on values: a shadow with one colour per pixel, and the four bit planes of
 the adapter, eight pixels to a byte.  Drawing keeps the planes a copy of the shadow.
 */
module VgaDisplay {
  import opened Bits

  const WIDTH := 640
  const HEIGHT := 480
  const PIXELS := 307200
  const BYTES := 38400    // bytes of a plane that are on screen
  const PLANE := 65536

  datatype Display = Display(shadow: seq<bv8>, planes: seq<seq<bv8>>, mapMask: bv8)

  predicate Valid(d: Display) {
    |d.shadow| == PIXELS && |d.planes| == 4 && forall p :: 0 <= p < 4 ==> |d.planes[p]| == PLANE
  }

  predicate OnScreen(x: int, y: int) { 0 <= x < WIDTH && 0 <= y < HEIGHT }

  function Index(x: int, y: int): (q: nat)
    requires OnScreen(x, y)
    ensures q < PIXELS && q / 8 == y * 80 + x / 8 && q % 8 == x % 8
    ensures q / WIDTH == y && q % WIDTH == x
  {
    y * WIDTH + x
  }

  /** Pixel b, from the left, of the eight that byte i holds. */
  function PixelOf(shadow: seq<bv8>, i: nat, b: nat): bv8
    requires |shadow| == PIXELS && i < BYTES && b < 8
  {
    shadow[8 * i + b]
  }

  // ---- shadow and planes ----------------------------------------------------------------------

  /** The first n bits, from the left, of byte i of plane p as the shadow wants it. */
  function {:induction false} PlaneBits(shadow: seq<bv8>, i: nat, p: nat, n: nat): (r: bv8)
    requires |shadow| == PIXELS && i < BYTES && p < 4 && n <= 8
    ensures forall k: nat {:trigger Bit(r, k)} :: k < 8 ==> (Bit(r, k) <==> 7 - k < n && Bit(PixelOf(shadow, i, 7 - k), p))
    decreases n
  {
    if n == 0 then
      assert forall k: nat {:trigger Bit(0, k)} :: k < 8 ==> !Bit(0, k) by {
        forall k: nat | k < 8 ensures !Bit(0, k) { EmptyByte(k); }
      }
      0
    else
      var r := PlaneBits(shadow, i, p, n - 1);
      if Bit(PixelOf(shadow, i, n - 1), p) then
        assert forall k: nat {:trigger Bit(WithBit(r, 8 - n), k)} :: k < 8 ==>
          (Bit(WithBit(r, 8 - n), k) <==> Bit(r, k) || 8 - n == k) by {
          forall k: nat | k < 8 { SetBit(r, 8 - n, k); }
        }
        WithBit(r, 8 - n)
      else r
  }

  function PlaneByte(shadow: seq<bv8>, i: nat, p: nat): bv8
    requires |shadow| == PIXELS && i < BYTES && p < 4
  {
    PlaneBits(shadow, i, p, 8)
  }

  /** Byte i of plane p is what the shadow wants. */
  predicate ByteAgrees(d: Display, i: nat, p: nat)
    requires Valid(d) && i < BYTES && p < 4
  {
    d.planes[p][i] == PlaneByte(d.shadow, i, p)
  }

  predicate Agree(d: Display) {
    Valid(d) && forall i: nat, p: nat {:trigger ByteAgrees(d, i, p)} :: i < BYTES && p < 4 ==> ByteAgrees(d, i, p)
  }

  /** Bit 7 - (x mod 8) of byte y * 80 + x / 8 of plane p is bit p of the shadow's pixel. */
  predicate PixelAgrees(d: Display, x: nat, y: nat, p: nat)
    requires Valid(d) && x < WIDTH && y < HEIGHT && p < 4
  {
    Bit(d.planes[p][y * 80 + x / 8], 7 - x % 8) <==> Bit(d.shadow[y * WIDTH + x], p)
  }

  lemma ByteBit(shadow: seq<bv8>, i: nat, p: nat, k: nat)
    requires |shadow| == PIXELS && i < BYTES && p < 4 && k < 8
    ensures Bit(PlaneByte(shadow, i, p), k) <==> Bit(PixelOf(shadow, i, 7 - k), p)
  {
  }

  /** Where on the screen pixel b of byte i is. */
  lemma PixelOfByte(i: nat, b: nat)
    requires i < BYTES && b < 8
    ensures var x, y := i % 80 * 8 + b, i / 80;
      OnScreen(x, y) && Index(x, y) == 8 * i + b && x % 8 == b && y * 80 + x / 8 == i
  {
  }

  predicate PixelsAgree(d: Display)
    requires Valid(d)
  {
    forall x: nat, y: nat, p: nat {:trigger PixelAgrees(d, x, y, p)} ::
      x < WIDTH && y < HEIGHT && p < 4 ==> PixelAgrees(d, x, y, p)
  }

  lemma PixelFromByte(d: Display, x: nat, y: nat, p: nat)
    requires Valid(d) && x < WIDTH && y < HEIGHT && p < 4 && ByteAgrees(d, y * 80 + x / 8, p)
    ensures PixelAgrees(d, x, y, p)
  {
    var i, b := y * 80 + x / 8, x % 8;
    ByteBit(d.shadow, i, p, 7 - b);
    assert 8 * i + b == Index(x, y);
  }

  lemma BitFromPixel(d: Display, i: nat, p: nat, k: nat)
    requires Valid(d) && i < BYTES && p < 4 && k < 8 && PixelsAgree(d)
    ensures Bit(d.planes[p][i], k) <==> Bit(PlaneByte(d.shadow, i, p), k)
  {
    ByteBit(d.shadow, i, p, k);
    PixelOfByte(i, 7 - k);
    assert PixelAgrees(d, i % 80 * 8 + (7 - k), i / 80, p);
  }

  /** Agreement byte by byte is agreement pixel by pixel. */
  lemma AgreeIffPixels(d: Display)
    requires Valid(d)
    ensures Agree(d) <==> PixelsAgree(d)
  {
    if Agree(d) {
      forall x: nat, y: nat, p: nat | x < WIDTH && y < HEIGHT && p < 4 ensures PixelAgrees(d, x, y, p) {
        assert ByteAgrees(d, y * 80 + x / 8, p);
        PixelFromByte(d, x, y, p);
      }
    }
    if PixelsAgree(d) {
      forall i: nat, p: nat | i < BYTES && p < 4 ensures ByteAgrees(d, i, p) {
        forall k: nat | k < 8 { BitFromPixel(d, i, p, k); }
        SameBits(d.planes[p][i], PlaneByte(d.shadow, i, p));
      }
    }
  }

  /** Where they agree, the four planes show the four low bits of the shadow. */
  lemma ShadowShown(d: Display, x: int, y: int)
    requires Agree(d) && OnScreen(x, y)
    ensures forall p :: 0 <= p < 4 ==> (Bit(d.planes[p][y * 80 + x / 8], 7 - x % 8) <==> Bit(d.shadow[Index(x, y)], p))
  {
    AgreeIffPixels(d);
    forall p | 0 <= p < 4 ensures Bit(d.planes[p][y * 80 + x / 8], 7 - x % 8) <==> Bit(d.shadow[Index(x, y)], p) {
      assert PixelAgrees(d, x, y, p);
    }
  }

  /** A byte depends only on its own eight pixels. */
  lemma PlaneByteLocal(s: seq<bv8>, s': seq<bv8>, i: nat, p: nat)
    requires |s| == |s'| == PIXELS && i < BYTES && p < 4
    requires forall b: nat {:trigger PixelOf(s, i, b)} :: b < 8 ==> PixelOf(s, i, b) == PixelOf(s', i, b)
    ensures PlaneByte(s, i, p) == PlaneByte(s', i, p)
  {
    forall k: nat | k < 8 ensures Bit(PlaneByte(s, i, p), k) <==> Bit(PlaneByte(s', i, p), k) {
      ByteBit(s, i, p, k);
      ByteBit(s', i, p, k);
    }
    SameBits(PlaneByte(s, i, p), PlaneByte(s', i, p));
  }

  /** The byte of a plane for eight pixels of one colour. */
  function Solid(c: bv8, p: nat): bv8
    requires p < 4
  {
    if Bit(c, p) then 0xFF else 0
  }

  lemma SolidByte(s: seq<bv8>, i: nat, p: nat, c: bv8)
    requires |s| == PIXELS && i < BYTES && p < 4
    requires forall b: nat {:trigger PixelOf(s, i, b)} :: b < 8 ==> PixelOf(s, i, b) == c
    ensures PlaneByte(s, i, p) == Solid(c, p)
  {
    forall k: nat | k < 8 ensures Bit(PlaneByte(s, i, p), k) <==> Bit(Solid(c, p), k) {
      FullByte(k);
      EmptyByte(k);
      ByteBit(s, i, p, k);
    }
    SameBits(PlaneByte(s, i, p), Solid(c, p));
  }

  // ---- repairing planes -----------------------------------------------------------------------

  predicate RepairedAt(before: seq<seq<bv8>>, after: seq<seq<bv8>>, shadow: seq<bv8>, touched: set<nat>, p: nat, i: nat)
    requires |before| == |after| == 4 && p < 4 && |before[p]| == |after[p]| == PLANE && |shadow| == PIXELS && i < PLANE
  {
    after[p][i] == if i in touched && i < BYTES then PlaneByte(shadow, i, p) else before[p][i]
  }

  /** The touched bytes of all planes are what the shadow wants; no other byte has changed. */
  predicate Repaired(before: seq<seq<bv8>>, after: seq<seq<bv8>>, shadow: seq<bv8>, touched: set<nat>) {
    && |before| == |after| == 4 && |shadow| == PIXELS
    && (forall p :: 0 <= p < 4 ==> |before[p]| == |after[p]| == PLANE)
    && forall p: nat, i: nat {:trigger RepairedAt(before, after, shadow, touched, p, i)} ::
         p < 4 && i < PLANE ==> RepairedAt(before, after, shadow, touched, p, i)
  }

  /** Two rounds of repair, when the bytes of the first still want what they got. */
  lemma RepairedTwice(a: seq<seq<bv8>>, b: seq<seq<bv8>>, c: seq<seq<bv8>>, s: seq<bv8>, s': seq<bv8>, t: set<nat>, t': set<nat>)
    requires Repaired(a, b, s, t) && Repaired(b, c, s', t')
    requires forall q :: 0 <= q < PIXELS && q / 8 !in t' ==> s[q] == s'[q]
    ensures Repaired(a, c, s', t + t')
  {
    forall p: nat, i: nat | p < 4 && i < PLANE ensures RepairedAt(a, c, s', t + t', p, i) {
      assert RepairedAt(a, b, s, t, p, i) && RepairedAt(b, c, s', t', p, i);
      if i < BYTES && i !in t' {
        assert forall b: nat {:trigger PixelOf(s, i, b)} :: b < 8 ==> (8 * i + b) / 8 == i;
        PlaneByteLocal(s, s', i, p);
      }
    }
  }

  /** A repair is determined by what it touches. */
  lemma RepairedUnique(a: seq<seq<bv8>>, b: seq<seq<bv8>>, c: seq<seq<bv8>>, s: seq<bv8>, t: set<nat>)
    requires Repaired(a, b, s, t) && Repaired(a, c, s, t)
    ensures b == c
  {
    forall p: nat | p < 4 ensures b[p] == c[p] {
      forall i: nat | i < PLANE ensures b[p][i] == c[p][i] {
        assert RepairedAt(a, b, s, t, p, i) && RepairedAt(a, c, s, t, p, i);
      }
    }
  }

  /** Repairing every byte that holds a changed pixel keeps agreement. */
  lemma RepairedAgrees(d: Display, d': Display, touched: set<nat>)
    requires Agree(d) && Repaired(d.planes, d'.planes, d'.shadow, touched)
    requires forall q :: 0 <= q < PIXELS && q / 8 !in touched ==> d.shadow[q] == d'.shadow[q]
    ensures Agree(d')
  {
    forall i: nat, p: nat | i < BYTES && p < 4 ensures ByteAgrees(d', i, p) {
      assert RepairedAt(d.planes, d'.planes, d'.shadow, touched, p, i) && ByteAgrees(d, i, p);
      if i !in touched {
        assert forall b: nat {:trigger PixelOf(d.shadow, i, b)} :: b < 8 ==> (8 * i + b) / 8 == i;
        PlaneByteLocal(d.shadow, d'.shadow, i, p);
      }
    }
  }
}
