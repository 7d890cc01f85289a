/** The points of a line: exactly as many as the longer side needs, each the one nearest to the ideal line. */
module Bresenham {
  import opened Basics

  function Magnitude(a: int): nat { if a < 0 then -a else a }
  function Max(a: int, b: int): int { if a > b then a else b }

  /** Steps to the side, of minor in all, after k of major steps: k * minor / major, rounded to the
      nearest, halves down. */
  function Minor(major: nat, minor: nat, k: nat): (m: nat)
    requires minor <= major
  {
    if major == 0 then 0 else (2 * minor * k + major - 1) / (2 * major)
  }

  /** Steps taken in x and in y at point k of a line that spans dx by dy. */
  function Steps(dx: nat, dy: nat, k: nat): (nat, nat) {
    if dx >= dy then (k, Minor(dx, dy, k)) else (Minor(dy, dx, k), k)
  }

  function Sign(a: int, b: int): int { if a < b then 1 else -1 }

  /** Point k of the line from (x1, y1) to (x2, y2). */
  function Point(x1: int, y1: int, x2: int, y2: int, k: nat): (int, int) {
    var (i, j) := Steps(Magnitude(x2 - x1), Magnitude(y2 - y1), k);
    (x1 + Sign(x1, x2) * i, y1 + Sign(y1, y2) * j)
  }

  /** The defining property of rounding to the nearest. */
  lemma MinorIs(major: nat, minor: nat, k: nat, m: nat)
    requires minor <= major && major > 0
    ensures m == Minor(major, minor, k) <==> 0 - major <= 2 * (major * m - minor * k) < major
  {
    var n, d := 2 * minor * k + major - 1, 2 * major;
    assert d * m == 2 * (major * m) && n == 2 * (minor * k) + major - 1;
    Quotient(n, d, m);
  }

  lemma Quotient(n: nat, d: nat, m: nat)
    requires d > 0
    ensures m == n / d <==> d * m <= n < d * m + d
  {
    var q := n / d;
    assert n == d * q + n % d;
    if m < q {
      assert d * (m + 1) <= d * q;
    } else if m > q {
      assert d * (q + 1) <= d * m;
    }
  }

  /** No overshoot to the side. */
  lemma MinorBounds(major: nat, minor: nat, k: nat)
    requires minor <= major && k <= major
    ensures Minor(major, minor, k) <= minor && Minor(major, minor, k) <= k
    ensures Minor(major, minor, 0) == 0 && Minor(major, minor, major) == minor
  {
    if major > 0 {
      var m := Minor(major, minor, k);
      MinorIs(major, minor, k, m);
      MinorIs(major, minor, 0, 0);
      MinorIs(major, minor, major, minor);
      Scale(minor, k, major);
      Scale(k, minor, major);
      Cancel(major, m, minor);
      Cancel(major, m, k);
    }
  }

  lemma Scale(d: nat, a: nat, b: nat)
    requires a <= b
    ensures d * a <= d * b && d * a <= b * d
  {
  }

  lemma Cancel(d: nat, a: int, b: int)
    ensures d > 0 && d * a < d * b + d ==> a <= b
  {
    if d > 0 && a > b {
      assert d * (a - b - 1) >= 0;
    }
  }

  /** A line starts and ends at its endpoints, and stays within the box they span. */
  lemma PointBounds(x1: int, y1: int, x2: int, y2: int, k: nat)
    requires k <= Max(Magnitude(x2 - x1), Magnitude(y2 - y1))
    ensures Point(x1, y1, x2, y2, 0) == (x1, y1)
    ensures Point(x1, y1, x2, y2, Max(Magnitude(x2 - x1), Magnitude(y2 - y1))) == (x2, y2)
    ensures var (x, y) := Point(x1, y1, x2, y2, k);
      && (x1 <= x <= x2 || x2 <= x <= x1) && (y1 <= y <= y2 || y2 <= y <= y1)
  {
    var dx, dy := Magnitude(x2 - x1), Magnitude(y2 - y1);
    MinorBounds(Max(dx, dy), if dx >= dy then dy else dx, k);
  }

  /** Every point is within half a pixel of the ideal line, measured to the side. */
  lemma HalfPixel(dx: nat, dy: nat, k: nat)
    requires k <= Max(dx, dy)
    ensures var (i, j) := Steps(dx, dy, k); 2 * Magnitude(dx * j - dy * i) <= Max(dx, dy)
  {
    var (i, j) := Steps(dx, dy, k);
    if dx >= dy {
      if dx > 0 { MinorIs(dx, dy, k, j); }
    } else {
      MinorIs(dy, dx, k, i);
    }
  }

  /** Neighbouring points touch, and no point is plotted twice. */
  lemma PointsConnected(dx: nat, dy: nat, k: nat)
    requires k < Max(dx, dy)
    ensures var (i, j) := Steps(dx, dy, k); var (i', j') := Steps(dx, dy, k + 1);
      i <= i' <= i + 1 && j <= j' <= j + 1 && (if dx >= dy then i' == i + 1 else j' == j + 1)
  {
    var major, minor := Max(dx, dy), if dx >= dy then dy else dx;
    var m, m' := Minor(major, minor, k), Minor(major, minor, k + 1);
    MinorIs(major, minor, k, m);
    MinorIs(major, minor, k + 1, m');
    assert minor * (k + 1) == minor * k + minor && major * (m + 1) == major * m + major;
    Cancel(major, m, m');
    Cancel(major, m', m + 1);
  }

  /** The error term of the loop, i steps in x and j steps in y from the start. */
  function Error(dx: nat, dy: nat, i: nat, j: nat): int {
    dx - dy + (dx * j - dy * i)
  }

  function ErrorAt(dx: nat, dy: nat, k: nat): int {
    var (i, j) := Steps(dx, dy, k);
    Error(dx, dy, i, j)
  }

  /** With the error that belongs to point k, exactly the steps to point
      k + 1 are taken, and the error is the one that belongs there. */
  lemma ErrorStep(dx: nat, dy: nat, k: nat)
    requires k < Max(dx, dy)
    ensures var (i, j) := Steps(dx, dy, k); var (i', j') := Steps(dx, dy, k + 1);
      var e := Error(dx, dy, i, j);
      && (2 * e > 0 - dy <==> i' == i + 1) && (2 * e < dx <==> j' == j + 1)
      && Error(dx, dy, i', j') == e - (if i' == i + 1 then dy else 0) + (if j' == j + 1 then dx else 0)
  {
    PointsConnected(dx, dy, k);
    var (i, j) := Steps(dx, dy, k);
    var (i', j') := Steps(dx, dy, k + 1);
    assert dx * (j + 1) == dx * j + dx && dy * (i + 1) == dy * i + dy;
    if dx >= dy {
      MinorIs(dx, dy, k, j);
      MinorIs(dx, dy, k + 1, j + 1);
      if dx == dy {
        MinorIs(dx, dy, k, k);
      }
    } else {
      MinorIs(dy, dx, k, i);
      MinorIs(dy, dx, k + 1, i + 1);
    }
  }

  /** One round of the loop takes point k to point k + 1. */
  lemma NextPoint(x1: int, y1: int, x2: int, y2: int, k: nat)
    requires k < Max(Magnitude(x2 - x1), Magnitude(y2 - y1))
    ensures var dx, dy := Magnitude(x2 - x1), Magnitude(y2 - y1); var (x, y) := Point(x1, y1, x2, y2, k);
      var e := ErrorAt(dx, dy, k); var right, down := 2 * e > 0 - dy, 2 * e < dx;
      && Point(x1, y1, x2, y2, k + 1) == (if right then x + Sign(x1, x2) else x, if down then y + Sign(y1, y2) else y)
      && ErrorAt(dx, dy, k + 1) == e - (if right then dy else 0) + (if down then dx else 0)
  {
    var dx, dy := Magnitude(x2 - x1), Magnitude(y2 - y1);
    ErrorStep(dx, dy, k);
    PointsConnected(dx, dy, k);
  }

  /** The end is reached at the last point, and at no other. */
  lemma EndIsLast(x1: int, y1: int, x2: int, y2: int, k: nat)
    requires k <= Max(Magnitude(x2 - x1), Magnitude(y2 - y1))
    ensures Point(x1, y1, x2, y2, k) == (x2, y2) <==> k == Max(Magnitude(x2 - x1), Magnitude(y2 - y1))
  {
    PointBounds(x1, y1, x2, y2, k);
  }

  // ---- 32 bits ------------------------------------------------------------------------------------

  predicate InInt32(a: int) { -0x8000_0000 <= a < 0x8000_0000 }

  /** Every number the loop computes on its way from point k to the next fits in 32 bits: twice the error
      term, the term less dy where that is subtracted, and the new term. */
  predicate StepFits(dx: nat, dy: nat, k: nat) {
    var e := ErrorAt(dx, dy, k);
    InInt32(2 * e) && (2 * e > 0 - dy ==> InInt32(e - dy)) && InInt32(ErrorAt(dx, dy, k + 1))
  }

  /** No computation of the line overflows. */
  predicate NoOverflow(dx: nat, dy: nat) {
    InInt32(dx) && InInt32(dy) && forall k: nat {:trigger StepFits(dx, dy, k)} :: k < Max(dx, dy) ==> StepFits(dx, dy, k)
  }

  const LONGEST: nat := 0x2AAA_AAAA

  /** No line overflows whose sides are at most a third of the range, and no straight line whose side is
      less than half of it. */
  lemma ShortFits(dx: nat, dy: nat)
    requires (dx <= LONGEST && dy <= LONGEST) || (dx == 0 && dy <= 0x4000_0000) || (dy == 0 && dx < 0x4000_0000)
    ensures NoOverflow(dx, dy)
  {
    forall k: nat | k < Max(dx, dy) ensures StepFits(dx, dy, k) {
      if dx <= LONGEST && dy <= LONGEST {
        ErrorBounds(dx, dy, k);
        ErrorBounds(dx, dy, k + 1);
      } else {
        MinorBounds(Max(dx, dy), 0, k);
        MinorBounds(Max(dx, dy), 0, k + 1);
      }
    }
  }

  lemma ErrorBounds(dx: nat, dy: nat, k: nat)
    requires k <= Max(dx, dy)
    ensures 2 * Magnitude(ErrorAt(dx, dy, k) - (dx - dy)) <= Max(dx, dy)
  {
    HalfPixel(dx, dy, k);
  }

  /** The longest straight line to the right is one pixel shorter than the one that overflows. */
  lemma LongOverflows()
    ensures !NoOverflow(0x4000_0000, 0)
  {
    MinorBounds(0x4000_0000, 0, 0);
    assert !StepFits(0x4000_0000, 0, 0);
  }
}
