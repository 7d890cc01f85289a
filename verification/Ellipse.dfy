/** The integer square root, and the ellipses of the boot screen drawn with it. */
module Ellipse {
  import opened Basics

  // ---- integer square root --------------------------------------------------------------------

  /** The largest number whose square is at most n. */
  function Root(n: nat): (r: nat)
    ensures r * r <= n < (r + 1) * (r + 1)
  {
    if n == 0 then 0 else
      var r := Root(n - 1);
      if (r + 1) * (r + 1) <= n then
        assert (r + 2) * (r + 2) == (r + 1) * (r + 1) + 2 * r + 3;
        r + 1
      else r
  }

  lemma RootUnique(n: nat, q: nat)
    requires q * q <= n < (q + 1) * (q + 1)
    ensures q == Root(n)
  {
    var r := Root(n);
    if q < r { SquareGrows(q + 1, r); }
    if r < q { SquareGrows(r + 1, q); }
  }

  lemma SquareGrows(a: nat, b: nat)
    requires a <= b
    ensures a * a <= b * b
  {
    assert b * b - a * a == (b - a) * (b + a);
  }

  /** Four times a product is at most the square of the sum. */
  lemma MeanSquare(a: int, b: int)
    ensures 4 * (a * b) <= (a + b) * (a + b)
  {
    assert (a + b) * (a + b) - 4 * (a * b) == (a - b) * (a - b);
    Nonnegative(a - b);
  }

  lemma Nonnegative(a: int)
    ensures a * a >= 0
  {
  }

  lemma Doubled(a: int)
    ensures (2 * a) * (2 * a) == 4 * (a * a)
  {
  }

  lemma QuotientBelow(n: nat, q: nat)
    requires q > 0 && q * q > n
    ensures n / q < q && n < q * (n / q + 1)
  {
    var t := n / q;
    assert n == q * t + n % q;
    assert q * (t + 1) == q * t + q;
  }

  /** A Newton step from above the root stays above it, and goes down. */
  lemma NewtonStep(n: nat, q: nat)
    requires n > 0 && q > 0 && q * q > n
    ensures var q' := (q + n / q) / 2; 0 < q' < q && n < (q' + 1) * (q' + 1)
  {
    var t := n / q;
    QuotientBelow(n, q);
    var u := (q + t) / 2 + 1;
    MeanSquare(q, t + 1);
    SquareGrows(q + t + 1, 2 * u);
    Doubled(u);
    assert n < u * u;
  }

  /** The first guess, squared, fits in 32 bits. */
  predicate Fits(n: int) { (n / 2 + 1) * (n / 2 + 1) < 0x8000_0000 }

  /** isqrt */
  method Isqrt(n: Int32) returns (q: Int32)
    requires Fits(n)
    ensures n <= 0 ==> q == 0
    ensures n > 0 ==> q == Root(n)
  {
    if n <= 0 { return 0; }
    q := n / 2 + 1;
    assert (q + 1) * (q + 1) == q * q + 2 * q + 1;
    ghost var first: nat := q;
    while true
      invariant 0 < q <= first && n < (q + 1) * (q + 1)
      decreases q
    {
      SquareGrows(q, first);
      var square: Int32 := q * q;
      if square <= n { break; }
      NewtonStep(n, q);
      q := (q + n / q) / 2;
    }
    RootUnique(n, q);
  }

  // ---- ellipses ---------------------------------------------------------------------------------

  const WIDTH := 320
  const HEIGHT := 200

  /** Division as C does it, towards zero. */
  function CDiv(a: int, b: int): int
    requires b > 0
  {
    if a >= 0 then a / b else -(-a / b)
  }

  function HalfWidth(rx: int, ry: nat, r: int): int
    requires ry > 0 && 0 - ry <= r <= ry
  {
    SquareGrows(Size(r), ry);
    SizeSquared(r);
    CDiv(rx * Root(ry * ry - r * r), ry)
  }

  /** The pixels of a filled ellipse. */
  predicate Filled(cx: int, cy: int, rx: int, ry: int, x: int, y: int) {
    ry > 0 && -ry <= y - cy <= ry && var hw := HalfWidth(rx, ry, y - cy); cx - hw <= x <= cx + hw
  }

  /** The pixels of an ellipse's outline. */
  predicate Stroked(cx: int, cy: int, rx: int, ry: int, x: int, y: int) {
    ry > 0 && -ry <= y - cy <= ry && AtEnds(cx, HalfWidth(rx, ry, y - cy), x)
  }

  predicate AtEnds(cx: int, hw: int, x: int) {
    x == cx - hw || x == cx - hw + 1 || x == cx + hw || x == cx + hw - 1
  }

  /** The points inside the ellipse with half axes rx and ry. */
  predicate Inside(rx: int, ry: int, dx: int, dy: int) {
    (dx * dx) * (ry * ry) + (dy * dy) * (rx * rx) <= (rx * rx) * (ry * ry)
  }

  lemma HalfWidthIs(a: nat, n: int, ry: nat)
    requires ry > 0
    ensures n >= 0 ==> (a <= CDiv(n, ry) <==> a * ry <= n)
    ensures n < 0 && a <= CDiv(n, ry) ==> a == 0
  {
    if n >= 0 {
      var q := n / ry;
      assert n == q * ry + n % ry;
      BelowQuotient(a, q, ry, n % ry);
    }
  }

  lemma BelowQuotient(a: nat, q: nat, d: nat, rest: nat)
    requires rest < d
    ensures a <= q <==> a * d <= q * d + rest
  {
    if a <= q {
      assert (q - a) * d >= 0;
    } else {
      assert (a - q - 1) * d >= 0;
    }
  }

  lemma Scaled(a: nat, ry: nat, b: nat, s: nat)
    requires a * ry <= b * s
    ensures (a * a) * (ry * ry) <= (b * b) * (s * s)
  {
    SquareGrows(a * ry, b * s);
    assert (a * ry) * (a * ry) == (a * a) * (ry * ry);
    assert (b * s) * (b * s) == (b * b) * (s * s);
  }

  lemma Weighed(w: nat, s2: nat, r2: int, m: int)
    requires s2 <= m - r2
    ensures w * s2 + r2 * w <= w * m
  {
    assert w * (m - r2 - s2) >= 0;
  }

  function Size(a: int): nat { if a < 0 then -a else a }

  lemma SizeSquared(a: int)
    ensures Size(a) * Size(a) == a * a
  {
  }

  /** A pixel of a row is filled exactly when its distance from the middle, times ry, is at most rx times
      the root. */
  lemma FilledIff(cx: int, cy: int, rx: nat, ry: int, x: int, y: int)
    requires ry > 0 && -ry <= y - cy <= ry
    ensures ry * ry - (y - cy) * (y - cy) >= 0
    ensures Filled(cx, cy, rx, ry, x, y) <==> Size(x - cx) * ry <= rx * Root(ry * ry - (y - cy) * (y - cy))
  {
    SquareGrows(Size(y - cy), ry);
    SizeSquared(y - cy);
    var s := Root(ry * ry - (y - cy) * (y - cy));
    assert rx * s >= 0;
    HalfWidthIs(Size(x - cx), rx * s, ry);
  }

  /** With a negative rx, only the middle of a row is ever filled. */
  lemma FilledNegative(cx: int, cy: int, rx: int, ry: int, x: int, y: int)
    requires Filled(cx, cy, rx, ry, x, y) && rx < 0
    ensures x == cx
  {
    SquareGrows(Size(y - cy), ry);
    SizeSquared(y - cy);
    var s := Root(ry * ry - (y - cy) * (y - cy));
    assert rx * s <= 0;
    HalfWidthIs(Size(x - cx), rx * s, ry);
  }

  /** Every pixel of a filled ellipse lies inside the ellipse. */
  lemma FilledInside(cx: int, cy: int, rx: int, ry: int, x: int, y: int)
    requires Filled(cx, cy, rx, ry, x, y)
    ensures Inside(rx, ry, x - cx, y - cy)
  {
    var dx, dy := x - cx, y - cy;
    SquareGrows(Size(dy), ry);
    SizeSquared(dy);
    var s := Root(ry * ry - dy * dy);
    if rx >= 0 {
      FilledIff(cx, cy, rx, ry, x, y);
    } else {
      FilledNegative(cx, cy, rx, ry, x, y);
      assert Size(rx) * s >= 0;
    }
    Scaled(Size(dx), ry, Size(rx), s);
    SizeSquared(dx);
    SizeSquared(rx);
    Weighed(rx * rx, s * s, dy * dy, ry * ry);
  }

  /** A circle is exactly the disc: no pixel is missed. */
  lemma DiscExact(cx: int, cy: int, r: int, x: int, y: int)
    requires r > 0
    ensures Filled(cx, cy, r, r, x, y) <==> (x - cx) * (x - cx) + (y - cy) * (y - cy) <= r * r
  {
    var dx, dy := x - cx, y - cy;
    SizeSquared(dx);
    SizeSquared(dy);
    if -r <= dy <= r {
      FilledIff(cx, cy, r, r, x, y);
      var m: nat := r * r - dy * dy;
      Unscaled(Size(dx), Root(m), r);
      RootBound(m, Size(dx));
    } else {
      SquareGrows(r + 1, Size(dy));
      Nonnegative(dx);
      assert (r + 1) * (r + 1) > r * r;
    }
  }

  lemma RootBound(m: nat, a: nat)
    ensures a <= Root(m) <==> a * a <= m
  {
    var s := Root(m);
    if a <= s {
      SquareGrows(a, s);
    } else {
      SquareGrows(s + 1, a);
    }
  }

  lemma Unscaled(a: nat, b: nat, r: nat)
    requires r > 0
    ensures a * r <= r * b <==> a <= b
  {
    if a <= b {
      assert (b - a) * r >= 0;
    } else {
      assert (a - b) * r > 0;
    }
  }

  /** Filled and stroked ellipses are symmetric about both axes. */
  lemma Symmetric(cx: int, cy: int, rx: int, ry: int, dx: int, dy: int)
    ensures Filled(cx, cy, rx, ry, cx + dx, cy + dy) <==> Filled(cx, cy, rx, ry, cx - dx, cy + dy)
    ensures Filled(cx, cy, rx, ry, cx + dx, cy + dy) <==> Filled(cx, cy, rx, ry, cx + dx, cy - dy)
    ensures Stroked(cx, cy, rx, ry, cx + dx, cy + dy) <==> Stroked(cx, cy, rx, ry, cx - dx, cy + dy)
    ensures Stroked(cx, cy, rx, ry, cx + dx, cy + dy) <==> Stroked(cx, cy, rx, ry, cx + dx, cy - dy)
  {
    assert (-dy) * (-dy) == dy * dy;
  }

  /** The outline of a row belongs to the filled ellipse exactly where rx times the root of the row is at
      least ry, so that the row is wider than one pixel; it always holds the row's first and last pixel. */
  lemma StrokeInsideIff(cx: int, cy: int, rx: nat, ry: int, y: int)
    requires ry > 0 && -ry <= y - cy <= ry
    ensures ry * ry - (y - cy) * (y - cy) >= 0
    ensures (forall x :: Stroked(cx, cy, rx, ry, x, y) ==> Filled(cx, cy, rx, ry, x, y)) <==>
            rx * Root(ry * ry - (y - cy) * (y - cy)) >= ry
    ensures var hw := HalfWidth(rx, ry, y - cy);
      && Stroked(cx, cy, rx, ry, cx - hw, y) && Filled(cx, cy, rx, ry, cx - hw, y) && !Filled(cx, cy, rx, ry, cx - hw - 1, y)
      && Stroked(cx, cy, rx, ry, cx + hw, y) && Filled(cx, cy, rx, ry, cx + hw, y) && !Filled(cx, cy, rx, ry, cx + hw + 1, y)
  {
    var hw := HalfWidth(rx, ry, y - cy);
    SquareGrows(Size(y - cy), ry);
    SizeSquared(y - cy);
    var n := rx * Root(ry * ry - (y - cy) * (y - cy));
    assert n >= 0;
    HalfWidthIs(0, n, ry);
    HalfWidthIs(1, n, ry);
    if hw == 0 {
      assert Stroked(cx, cy, rx, ry, cx + 1, y) && !Filled(cx, cy, rx, ry, cx + 1, y);
    }
  }

  /** The outline of a row, from the filled row alone: in a row of three pixels or more, those within one of
      either end; of a single pixel, that and its two neighbours. */
  lemma StrokedIff(cx: int, cy: int, rx: nat, ry: int, x: int, y: int)
    requires ry > 0 && -ry <= y - cy <= ry
    ensures Filled(cx, cy, rx, ry, cx + 1, y) ==>
      (Stroked(cx, cy, rx, ry, x, y) <==>
         Filled(cx, cy, rx, ry, x, y) && !(Filled(cx, cy, rx, ry, x - 2, y) && Filled(cx, cy, rx, ry, x + 2, y)))
    ensures !Filled(cx, cy, rx, ry, cx + 1, y) ==> (Stroked(cx, cy, rx, ry, x, y) <==> cx - 1 <= x <= cx + 1)
  {
    StrokeInsideIff(cx, cy, rx, ry, y);
  }

  lemma Grows(a: int, b: int, d: nat)
    requires a <= b
    ensures a * d <= b * d
  {
    assert (b - a) * d == b * d - a * d;
  }

  lemma Follows(q: int, n: nat, d: nat)
    requires d > 0 && q == n / d
    ensures q * d <= n < (q + 1) * d
  {
    assert n == q * d + n % d && (q + 1) * d == q * d + d;
  }

  lemma QuotientIs(a: int, n: nat, d: nat)
    requires d > 0
    ensures a == n / d <==> a * d <= n < (a + 1) * d
  {
    var q := n / d;
    Follows(q, n, d);
    if a < q {
      Grows(a + 1, q, d);
    } else if q < a {
      Grows(q + 1, a, d);
    }
  }

  /** With a negative rx, only the middle of a row can be filled, and is when -rx times the root is below ry; the
      outline is the pixels whose distance from the middle, or one less, is the quotient of the two. */
  lemma NegativeIff(cx: int, cy: int, rx: int, ry: int, x: int, y: int)
    requires rx < 0 && ry > 0 && -ry <= y - cy <= ry
    ensures ry * ry - (y - cy) * (y - cy) >= 0
    ensures var n, a := -rx * Root(ry * ry - (y - cy) * (y - cy)), if x < cx then cx - x else x - cx;
      && (Filled(cx, cy, rx, ry, x, y) <==> x == cx && n < ry)
      && (Stroked(cx, cy, rx, ry, x, y) <==> (a * ry <= n < (a + 1) * ry) || ((a - 1) * ry <= n < a * ry))
  {
    SquareGrows(Size(y - cy), ry);
    SizeSquared(y - cy);
    var s := Root(ry * ry - (y - cy) * (y - cy));
    var n, a := -rx * s, if x < cx then cx - x else x - cx;
    assert n >= 0 && rx * s == -n;
    QuotientIs(a, n, ry);
    QuotientIs(a - 1, n, ry);
    QuotientIs(0, n, ry);
    assert HalfWidth(rx, ry, y - cy) == -(n / ry);
  }

  /** In the top row of every ellipse the outline leaves it. */
  lemma TopRowOutside(cx: int, cy: int, rx: nat, ry: int)
    requires ry > 0
    ensures Stroked(cx, cy, rx, ry, cx + 1, cy - ry) && !Filled(cx, cy, rx, ry, cx + 1, cy - ry)
  {
    assert (-ry) * (-ry) == ry * ry;
    RootUnique(0, 0);
    HalfWidthIs(0, rx * 0, ry);
    HalfWidthIs(1, rx * 0, ry);
  }

  // ---- drawing ----------------------------------------------------------------------------------

  function Col(k: nat): nat { k % WIDTH }
  function Row(k: nat): nat { k / WIDTH }

  lemma Place(x: nat, y: nat, k: nat)
    requires x < WIDTH
    ensures (Col(k) == x && Row(k) == y) <==> k == y * WIDTH + x
  {
  }

  class Canvas {
    const fb: array<bv8>

    constructor (fb: array<bv8>)
      ensures this.fb == fb
    {
      this.fb := fb;
    }

    ghost predicate Valid()
    {
      fb.Length == WIDTH * HEIGHT
    }

    /** px: a pixel off the screen is not drawn. */
    method Px(x: int, y: int, c: bv8)
      requires Valid()
      modifies fb
      ensures fb.Length == 64000
      ensures forall k: nat :: k < fb.Length ==> fb[k] == if k % 320 == x && k / 320 == y then c else old(fb[k])
    {
      if 0 <= x < WIDTH && 0 <= y < HEIGHT {
        forall k: nat { Place(x, y, k); }
        fb[y * WIDTH + x] := c;
      }
    }

    /** The inner loop of fill_ellipse. */
    method Span(from: int, to: int, y: int, c: bv8)
      requires Valid()
      modifies fb
      ensures forall k: nat :: k < fb.Length ==>
        fb[k] == if from <= Col(k) <= to && Row(k) == y then c else old(fb[k])
    {
      var x := from;
      while x <= to
        invariant if from <= to then from <= x <= to + 1 else x == from
        invariant forall k: nat :: k < fb.Length ==>
          fb[k] == if from <= Col(k) < x && Row(k) == y then c else old(fb[k])
      {
        Px(x, y, c);
        x := x + 1;
      }
    }

    /** The half width of a row, as both ellipse loops compute it. */
    method RowWidth(rx: Int32, ry: Int32, r: int) returns (hw: int)
      requires Drawable(rx, ry) && ry > 0 && -ry <= r <= ry
      ensures hw == HalfWidth(rx, ry, r)
    {
      SquareGrows(Size(r), ry);
      SizeSquared(r);
      FitsBelow(ry * ry, ry * ry - r * r);
      var root := Isqrt(ry * ry - r * r);
      hw := CDiv(rx * root, ry);
    }

    /** A round of fill_ellipse. */
    method FillRow(cx: int, cy: int, rx: Int32, ry: Int32, r: int, c: bv8)
      requires Valid() && Drawable(rx, ry) && -ry <= r <= ry
      modifies fb
      ensures forall k: nat :: k < fb.Length ==>
        fb[k] == if Row(k) == cy + r && Filled(cx, cy, rx, ry, Col(k), Row(k)) then c else old(fb[k])
    {
      var hw := RowWidth(rx, ry, r);
      Span(cx - hw, cx + hw, cy + r, c);
    }

    /** fill_ellipse: exactly the pixels of the filled ellipse that are on screen. */
    method FillEllipse(cx: int, cy: int, rx: Int32, ry: Int32, c: bv8)
      requires Valid() && Drawable(rx, ry)
      modifies fb
      ensures forall k: nat :: k < fb.Length ==>
        fb[k] == if Filled(cx, cy, rx, ry, k % 320, k / 320) then c else old(fb[k])
    {
      var r := -ry;
      while r <= ry
        invariant -ry <= r && (ry > 0 ==> r <= ry + 1)
        invariant forall k: nat :: k < fb.Length ==>
          fb[k] == if Row(k) < cy + r && Filled(cx, cy, rx, ry, Col(k), Row(k)) then c else old(fb[k])
      {
        FillRow(cx, cy, rx, ry, r, c);
        r := r + 1;
      }
    }

    /** A round of stroke_ellipse. */
    method StrokeRow(cx: int, cy: int, rx: Int32, ry: Int32, r: int, c: bv8)
      requires Valid() && Drawable(rx, ry) && -ry <= r <= ry
      modifies fb
      ensures forall k: nat :: k < fb.Length ==>
        fb[k] == if Row(k) == cy + r && Stroked(cx, cy, rx, ry, Col(k), Row(k)) then c else old(fb[k])
    {
      var hw := RowWidth(rx, ry, r);
      Px(cx - hw, cy + r, c);
      Px(cx - hw + 1, cy + r, c);
      Px(cx + hw, cy + r, c);
      Px(cx + hw - 1, cy + r, c);
    }

    /** stroke_ellipse: exactly the pixels of the outline that are on screen. */
    method StrokeEllipse(cx: int, cy: int, rx: Int32, ry: Int32, c: bv8)
      requires Valid() && Drawable(rx, ry)
      modifies fb
      ensures forall k: nat :: k < fb.Length ==>
        fb[k] == if Stroked(cx, cy, rx, ry, k % 320, k / 320) then c else old(fb[k])
    {
      var r := -ry;
      while r <= ry
        invariant -ry <= r && (ry > 0 ==> r <= ry + 1)
        invariant forall k: nat :: k < fb.Length ==>
          fb[k] == if Row(k) < cy + r && Stroked(cx, cy, rx, ry, Col(k), Row(k)) then c else old(fb[k])
      {
        StrokeRow(cx, cy, rx, ry, r, c);
        r := r + 1;
      }
    }
  }

  /** The arithmetic of an ellipse stays within 32 bits, and there is no division by zero. */
  predicate Drawable(rx: int, ry: int) {
    ry != 0 && ry > -0x8000_0000 && (ry > 0 ==> Fits(ry * ry) && -0x8000_0000 <= rx * ry < 0x8000_0000)
  }

  lemma FitsBelow(n: nat, m: nat)
    requires Fits(n) && m <= n
    ensures Fits(m) && m <= n < 0x8000_0000
  {
    SquareGrows(m / 2 + 1, n / 2 + 1);
    assert (n / 2 + 1) * (n / 2 + 1) >= 2 * (n / 2) + 1;
  }
}
