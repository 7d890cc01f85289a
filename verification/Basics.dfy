/** Values shared by every part of the kernel model. */
module Basics {

  datatype Option<+T> = None | Some(value: T)

  const TWO_TO_THE_32 := 0x1_0000_0000

  /** A 32-bit machine word, read as an unsigned number. */
  type Word = x: int | 0 <= x < TWO_TO_THE_32

  /** A 16-bit segment selector. */
  type Selector = x: int | 0 <= x < 0x1_0000

  type Byte = x: int | 0 <= x < 0x100

  /** A signed 32-bit number. */
  type Int32 = x: int | -0x8000_0000 <= x < 0x8000_0000

  const PAGE_SIZE := 4096

  /** The first position of x in q from position k on, or |q| when there is none. */
  function IndexFrom<T(==)>(q: seq<T>, x: T, k: nat): (i: nat)
    requires k <= |q|
    ensures k <= i <= |q|
    ensures i < |q| ==> q[i] == x
    ensures forall j :: k <= j < i ==> q[j] != x
    decreases |q| - k
  {
    if k == |q| || q[k] == x then k else IndexFrom(q, x, k + 1)
  }

  /** The first position of x in q, or |q| when x does not occur. */
  function IndexOf<T(==)>(q: seq<T>, x: T): (i: nat)
    ensures i <= |q|
    ensures i < |q| ==> q[i] == x
    ensures forall j :: 0 <= j < i ==> q[j] != x
  {
    IndexFrom(q, x, 0)
  }

  predicate Differ<T(==)>(q: seq<T>, j: nat, k: nat)
    requires j < k < |q|
  {
    q[j] != q[k]
  }

  predicate Distinct<T(==)>(q: seq<T>) {
    forall j: nat, k: nat {:trigger Differ(q, j, k)} :: j < k < |q| ==> Differ(q, j, k)
  }

  lemma IndexOfAt<T>(q: seq<T>, k: nat)
    requires Distinct(q) && k < |q|
    ensures IndexOf(q, q[k]) == k
  {
    var i := IndexOf(q, q[k]);
    assert i < k ==> Differ(q, i, k);
  }

  lemma AppendDistinct<T>(q: seq<T>, x: T)
    requires Distinct(q) && x !in q
    ensures Distinct(q + [x])
  {
    forall j: nat, k: nat | j < k < |q + [x]| ensures Differ(q + [x], j, k) {
      assert k < |q| ==> Differ(q, j, k);
    }
  }

  function WithoutAt<T>(q: seq<T>, k: nat): seq<T>
    requires k < |q|
  {
    q[..k] + q[k + 1..]
  }

  /** q without the first occurrence of x. */
  function Without<T(==)>(q: seq<T>, x: T): seq<T> {
    var k := IndexOf(q, x);
    if k < |q| then WithoutAt(q, k) else q
  }

  /** Removal takes out x and nothing else, and keeps the order of the rest. */
  lemma WithoutKeeps<T>(q: seq<T>, x: T, y: T)
    requires Distinct(q)
    ensures Distinct(Without(q, x)) && x !in Without(q, x)
    ensures y != x ==> (y in Without(q, x) <==> y in q)
    ensures forall i :: i in Without(q, x) ==> i in q
  {
    var r, k, j := Without(q, x), IndexOf(q, x), IndexOf(q, y);
    assert forall i :: 0 <= i < |r| ==> r[i] == if i < k then q[i] else q[i + 1];
    forall a: nat, b: nat | a < b < |r| ensures Differ(r, a, b) {
      assert Differ(q, if a < k then a else a + 1, if b < k then b else b + 1);
    }
    forall a: nat | a < |r| ensures r[a] != x {
      if k < |q| {
        assert a >= k ==> Differ(q, k, a + 1);
      }
    }
    if y != x && j < |q| {
      assert r[if j < k then j else j - 1] == y;
    }
  }
}
