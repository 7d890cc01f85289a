/** Counted strings and their order. */
module Names {
  import opened Basics

  type WChar = x: int | 0 <= x < 0x1_0000

  /** A counted string: its length in bytes, and a buffer, which may be missing. */
  datatype Unicode = Unicode(length: nat, buffer: Option<seq<WChar>>)

  /** The buffer holds at least as many characters as the length says. */
  predicate Backed(u: Unicode) { u.buffer.Some? ==> u.length / 2 <= |u.buffer.value| }

  /** The text of a string; a string without a buffer has none. */
  function Text(u: Unicode): Option<seq<WChar>>
    requires Backed(u)
  {
    if u.buffer.None? then None else Some(u.buffer.value[..u.length / 2])
  }

  /** The first position where two texts differ, or the length of the shorter. */
  function Common(a: seq<WChar>, b: seq<WChar>, i: nat): (n: nat)
    requires i <= |a| && i <= |b|
    ensures i <= n <= |a| && n <= |b|
    ensures forall k :: i <= k < n ==> a[k] == b[k]
    ensures n < |a| && n < |b| ==> a[n] != b[n]
    decreases |a| - i
  {
    if i == |a| || i == |b| || a[i] != b[i] then i else Common(a, b, i + 1)
  }

  /** Lexicographic order: -1, 0 or 1. */
  function Order(a: seq<WChar>, b: seq<WChar>): int {
    var n := Common(a, b, 0);
    if n < |a| && n < |b| then (if a[n] < b[n] then -1 else 1)
    else if |a| == |b| then 0 else if |a| < |b| then -1 else 1
  }

  /** No pointer or no buffer comes before everything else. */
  function Compare(s: Option<Unicode>, t: Option<Unicode>): int
    requires (s.Some? ==> Backed(s.value)) && (t.Some? ==> Backed(t.value))
  {
    if s.None? || t.None? then (if s.None? && t.None? then 0 else if s.Some? then 1 else -1)
    else
      var a, b := Text(s.value), Text(t.value);
      if a.None? || b.None? then (if a == b then 0 else if a.Some? then 1 else -1)
      else Order(a.value, b.value)
  }

  lemma CommonIs(a: seq<WChar>, b: seq<WChar>, n: nat)
    requires n <= |a| && n <= |b| && (forall k :: 0 <= k < n ==> a[k] == b[k])
    requires n < |a| && n < |b| ==> a[n] != b[n]
    ensures Common(a, b, 0) == n
  {
    assert Common(a, b, 0) <= |a|;
  }

  /** Comparison is a total order on texts: zero exactly for equal ones, opposite when swapped, and
      transitive. */
  lemma OrderTotal(a: seq<WChar>, b: seq<WChar>, c: seq<WChar>)
    ensures Order(a, b) == 0 <==> a == b
    ensures Order(b, a) == -Order(a, b)
    ensures Order(a, b) <= 0 && Order(b, c) <= 0 ==> Order(a, c) <= 0
  {
    var n, m := Common(a, b, 0), Common(b, c, 0);
    CommonIs(b, a, n);
    if Order(a, b) == 0 {
      assert a == b;
    }
    if Order(a, b) <= 0 && Order(b, c) <= 0 {
      if n <= m {
        CommonBoth(a, b, c, n, m);
      } else {
        CommonBoth(c, b, a, m, n);
        CommonIs(a, c, Common(c, a, 0));
      }
    }
  }

  /** Which text comes first: one that the other continues, or the one with the smaller character at the first
      position where they differ. */
  lemma OrderFirst(a: seq<WChar>, b: seq<WChar>, n: nat)
    requires n <= |a| && n <= |b| && a[..n] == b[..n]
    ensures n == |a| < |b| ==> Order(a, b) == -1 && Order(b, a) == 1
    ensures n < |a| && n < |b| && a[n] < b[n] ==> Order(a, b) == -1 && Order(b, a) == 1
  {
    assert forall k :: 0 <= k < n ==> a[k] == a[..n][k] == b[..n][k] == b[k];
    if n == |a| || n == |b| || a[n] != b[n] {
      CommonIs(a, b, n);
      CommonIs(b, a, n);
    }
  }

  /** A missing string, or one without a buffer, comes before every string that has what it lacks, and equals
      one that lacks the same. */
  lemma MissingFirst(s: Unicode, t: Unicode)
    requires Backed(s) && Backed(t)
    ensures Compare(None, None) == 0 && Compare(None, Some(t)) == -1 && Compare(Some(s), None) == 1
    ensures s.buffer.None? && t.buffer.None? ==> Compare(Some(s), Some(t)) == 0
    ensures s.buffer.None? && t.buffer.Some? ==> Compare(Some(s), Some(t)) == -1 && Compare(Some(t), Some(s)) == 1
    ensures s.buffer.Some? && t.buffer.Some? ==>
      Compare(Some(s), Some(t)) == Order(s.buffer.value[..s.length / 2], t.buffer.value[..t.length / 2])
  {
  }

  lemma CommonBoth(a: seq<WChar>, b: seq<WChar>, c: seq<WChar>, n: nat, m: nat)
    requires n == Common(a, b, 0) && m <= |b| && m <= |c| && forall k :: 0 <= k < m ==> b[k] == c[k]
    requires n <= m
    ensures n <= Common(a, c, 0) && (n < m && n < |a| ==> Common(a, c, 0) == n)
    ensures forall k :: 0 <= k < n ==> a[k] == c[k]
  {
    assert forall k :: 0 <= k < n ==> a[k] == b[k] == c[k];
  }

  /** RtlCompareUnicodeString */
  method CompareUnicode(s: Option<Unicode>, t: Option<Unicode>) returns (r: int)
    requires (s.Some? ==> Backed(s.value)) && (t.Some? ==> Backed(t.value))
    ensures r == Compare(s, t)
  {
    if s.None? || t.None? {
      return if s == t then 0 else if s.Some? then 1 else -1;
    }
    var a, b := s.value.buffer, t.value.buffer;
    if a.None? || b.None? {
      return if a == b then 0 else if a.Some? then 1 else -1;
    }
    var len1, len2 := s.value.length / 2, t.value.length / 2;
    var least := if len1 < len2 then len1 else len2;
    ghost var x, y := Text(s.value).value, Text(t.value).value;
    for i := 0 to least
      invariant forall k :: 0 <= k < i ==> x[k] == y[k]
    {
      var c1, c2 := a.value[i], b.value[i];
      assert c1 == x[i] && c2 == y[i];
      if c1 != c2 {
        CommonIs(x, y, i);
        return if c1 < c2 then -1 else 1;
      }
    }
    CommonIs(x, y, least);
    if len1 == len2 { return 0; }
    return if len1 < len2 then -1 else 1;
  }
}
