/** Python's ordering of strings and the `sorted(set(...))` idiom the analysed code uses to
    emit duplicate-free, ordered lists. */
module Ordering {

  /** Python's `a < b` on `str`: lexicographic by code point, a proper prefix first. */
  predicate StrLess(a: string, b: string) {
    if a == [] then b != []
    else if b == [] then false
    else if a[0] != b[0] then a[0] < b[0]
    else StrLess(a[1..], b[1..])
  }

  lemma StrLessIrreflexive(a: string)
    ensures !StrLess(a, a)
  {
    if a != [] {
      StrLessIrreflexive(a[1..]);
    }
  }

  lemma {:induction false} StrLessTransitive(a: string, b: string, c: string)
    requires StrLess(a, b) && StrLess(b, c)
    ensures StrLess(a, c)
    decreases |a|
  {
    if a != [] && b != [] && c != [] && a[0] == b[0] && b[0] == c[0] {
      StrLessTransitive(a[1..], b[1..], c[1..]);
    }
  }

  lemma {:induction false} StrLessTotal(a: string, b: string)
    ensures a == b || StrLess(a, b) || StrLess(b, a)
    decreases |a|
  {
    if a != [] && b != [] && a[0] == b[0] {
      StrLessTotal(a[1..], b[1..]);
      if a[1..] == b[1..] {
        assert a == [a[0]] + a[1..] && b == [b[0]] + b[1..];
      }
    }
  }

  /** Python's ordering of `(int, str)` tuples: by the number, then by the string. */
  predicate RankedLess(a: (nat, string), b: (nat, string)) {
    a.0 < b.0 || (a.0 == b.0 && StrLess(a.1, b.1))
  }

  /** Python's ordering of `(int, int)` tuples. */
  predicate PairLess(a: (nat, nat), b: (nat, nat)) {
    a.0 < b.0 || (a.0 == b.0 && a.1 < b.1)
  }

  ghost predicate StrictTotalOrder<T(!new)>(less: (T, T) -> bool) {
    && (forall a :: !less(a, a))
    && (forall a, b, c :: less(a, b) && less(b, c) ==> less(a, c))
    && (forall a, b :: a == b || less(a, b) || less(b, a))
  }

  lemma StrLessIsOrder()
    ensures StrictTotalOrder(StrLess)
  {
    forall a: string ensures !StrLess(a, a) {
      StrLessIrreflexive(a);
    }
    forall a: string, b: string, c: string | StrLess(a, b) && StrLess(b, c) ensures StrLess(a, c) {
      StrLessTransitive(a, b, c);
    }
    forall a: string, b: string ensures a == b || StrLess(a, b) || StrLess(b, a) {
      StrLessTotal(a, b);
    }
  }

  lemma RankedLessIsOrder()
    ensures StrictTotalOrder(RankedLess)
  {
    StrLessIsOrder();
  }

  lemma PairLessIsOrder()
    ensures StrictTotalOrder(PairLess)
  {
  }

  /** Strictly increasing: ordered and duplicate-free. */
  ghost predicate Sorted<T>(r: seq<T>, less: (T, T) -> bool) {
    forall i, j :: 0 <= i < j < |r| ==> less(r[i], r[j])
  }

  /** Insert `x` into a strictly increasing sequence unless it is already there. */
  function Insert<T(==,!new)>(r: seq<T>, x: T, less: (T, T) -> bool): (r': seq<T>)
    requires StrictTotalOrder(less) && Sorted(r, less)
    ensures Sorted(r', less)
    ensures forall y :: y in r' <==> y in r || y == x
  {
    if r == [] then [x]
    else if x == r[0] then r
    else if less(x, r[0]) then [x] + r
    else
      var tail := Insert(r[1..], x, less);
      assert forall y :: y in tail ==> less(r[0], y);
      [r[0]] + tail
  }

  /** The value of `sorted(set(xs))`: the distinct elements of `xs` in increasing order. */
  function SortedSet<T(==,!new)>(xs: seq<T>, less: (T, T) -> bool): (r: seq<T>)
    requires StrictTotalOrder(less)
    ensures Sorted(r, less)
    ensures forall x :: x in r <==> x in xs
  {
    if xs == [] then []
    else
      var init := xs[..|xs| - 1];
      assert xs == init + [xs[|xs| - 1]];
      Insert(SortedSet(init, less), xs[|xs| - 1], less)
  }

  /** `sorted(set(xs))`, computed by inserting the elements one at a time. */
  method SortUnique<T(==,!new)>(xs: seq<T>, less: (T, T) -> bool) returns (r: seq<T>)
    requires StrictTotalOrder(less)
    ensures r == SortedSet(xs, less)
  {
    r := [];
    var i := 0;
    while i < |xs|
      invariant 0 <= i <= |xs|
      invariant r == SortedSet(xs[..i], less)
    {
      assert xs[..i + 1][..i] == xs[..i];
      r := Insert(r, xs[i], less);
      i := i + 1;
    }
    assert xs[..i] == xs;
  }

  /** `xs` without the elements of `ys`, in the order of `xs`. */
  function Without<T(==,!new)>(xs: seq<T>, ys: seq<T>): (r: seq<T>)
    ensures forall x :: x in r <==> x in xs && x !in ys
  {
    if xs == [] then [] else (if xs[0] in ys then [] else [xs[0]]) + Without(xs[1..], ys)
  }

  /** Python's `xs.remove(x)` for an `x` that occurs: its first occurrence goes. */
  function RemoveFirst<T(==)>(xs: seq<T>, x: T): seq<T>
    requires x in xs
  {
    if xs[0] == x then xs[1..] else [xs[0]] + RemoveFirst(xs[1..], x)
  }

  /** `for y in ys: if y in xs: xs.remove(y)` over a strictly increasing `xs`. */
  method RemoveEach<T(==,!new)>(xs: seq<T>, ys: seq<T>, less: (T, T) -> bool) returns (r: seq<T>)
    requires StrictTotalOrder(less) && Sorted(xs, less)
    ensures r == Without(xs, ys)
  {
    r := xs;
    assert Without(xs, []) == xs by {
      WithoutNothing(xs);
    }
    var j := 0;
    while j < |ys|
      invariant 0 <= j <= |ys|
      invariant r == Without(xs, ys[..j])
    {
      assert ys[..j + 1] == ys[..j] + [ys[j]];
      if ys[j] in r {
        RemoveFirstSorted(xs, ys[..j], ys[j], less);
        r := RemoveFirst(r, ys[j]);
      } else {
        WithoutExtend(xs, ys[..j], ys[j]);
      }
      j := j + 1;
    }
    assert ys[..j] == ys;
  }

  lemma WithoutNothing<T(!new)>(xs: seq<T>)
    ensures Without(xs, []) == xs
  {
    if xs != [] {
      WithoutNothing(xs[1..]);
    }
  }

  /** Removing elements keeps a sequence strictly increasing. */
  lemma {:induction false} WithoutSorted<T(!new)>(xs: seq<T>, ys: seq<T>, less: (T, T) -> bool)
    requires Sorted(xs, less)
    ensures Sorted(Without(xs, ys), less)
  {
    if xs != [] {
      WithoutSorted(xs[1..], ys, less);
      var tail := Without(xs[1..], ys);
      assert forall y :: y in tail ==> less(xs[0], y) by {
        forall y | y in tail ensures less(xs[0], y) {
          var k :| 0 <= k < |xs[1..]| && xs[1..][k] == y;
          assert xs[k + 1] == y;
        }
      }
    }
  }

  /** In a strictly increasing sequence `remove(x)` drops every `x`, and dropping the
      elements of `ys` and then `y` drops those of `ys + [y]`. */
  lemma {:induction false} RemoveFirstSorted<T(!new)>(xs: seq<T>, ys: seq<T>, x: T, less: (T, T) -> bool)
    requires StrictTotalOrder(less) && Sorted(xs, less) && x in Without(xs, ys)
    ensures RemoveFirst(Without(xs, ys), x) == Without(xs, ys + [x])
  {
    var w1 := Without(xs[1..], ys);
    assert Sorted(xs[1..], less) by {
      forall i, j | 0 <= i < j < |xs[1..]| ensures less(xs[1..][i], xs[1..][j]) {
        assert xs[1..][i] == xs[i + 1] && xs[1..][j] == xs[j + 1];
      }
    }
    if xs[0] in ys {
      assert Without(xs, ys) == w1;
      RemoveFirstSorted(xs[1..], ys, x, less);
      assert Without(xs, ys + [x]) == Without(xs[1..], ys + [x]);
    } else if xs[0] == x {
      assert Without(xs, ys) == [x] + w1;
      assert xs == [x] + xs[1..];
      WithoutAbsent(xs[1..], ys, x, less);
      assert Without(xs, ys + [x]) == Without(xs[1..], ys + [x]);
    } else {
      assert Without(xs, ys) == [xs[0]] + w1;
      RemoveFirstSorted(xs[1..], ys, x, less);
      assert Without(xs, ys + [x]) == [xs[0]] + Without(xs[1..], ys + [x]);
    }
  }

  /** Adding to `ys` an element that is not among the kept ones changes nothing. */
  lemma {:induction false} WithoutExtend<T(!new)>(xs: seq<T>, ys: seq<T>, x: T)
    requires x !in Without(xs, ys)
    ensures Without(xs, ys + [x]) == Without(xs, ys)
  {
    if xs != [] {
      WithoutExtend(xs[1..], ys, x);
    }
  }

  lemma WithoutAbsent<T(!new)>(xs: seq<T>, ys: seq<T>, x: T, less: (T, T) -> bool)
    requires StrictTotalOrder(less) && Sorted([x] + xs, less)
    ensures Without(xs, ys + [x]) == Without(xs, ys)
  {
    forall k | 0 <= k < |xs| ensures xs[k] != x {
      assert less(([x] + xs)[0], ([x] + xs)[k + 1]);
    }
    WithoutExtend(xs, ys, x);
  }

  /** Two strictly increasing sequences with the same elements are the same sequence:
      the output of `SortUnique` is determined by the set of its input's elements. */
  lemma {:induction false} SortedUnique<T(!new)>(r: seq<T>, s: seq<T>, less: (T, T) -> bool)
    requires StrictTotalOrder(less) && Sorted(r, less) && Sorted(s, less)
    requires forall x :: x in r <==> x in s
    ensures r == s
    decreases |r|
  {
    if r != [] {
      assert r[0] in r;
    }
    if s != [] {
      assert s[0] in s;
    }
    if r != [] && s != [] {
      if r[0] != s[0] {
        assert false;
      }
      forall x | x in r[1..] ensures x in s[1..] {
        var k :| 0 <= k < |r[1..]| && r[1..][k] == x;
        assert less(r[0], r[k + 1]) && r[k + 1] == x && x in r;
        assert x in s;
        var m :| 0 <= m < |s| && s[m] == x;
        assert m != 0;
        assert s[1..][m - 1] == x;
      }
      forall x | x in s[1..] ensures x in r[1..] {
        var k :| 0 <= k < |s[1..]| && s[1..][k] == x;
        assert less(s[0], s[k + 1]) && s[k + 1] == x && x in s;
        assert x in r;
        var m :| 0 <= m < |r| && r[m] == x;
        assert m != 0;
        assert r[1..][m - 1] == x;
      }
      SortedUnique(r[1..], s[1..], less);
    }
  }

  /** A strictly increasing sequence has no repeated element. */
  lemma SortedDistinct<T(!new)>(r: seq<T>, less: (T, T) -> bool, i: int, j: int)
    requires StrictTotalOrder(less) && Sorted(r, less)
    requires 0 <= i < |r| && 0 <= j < |r| && i != j
    ensures r[i] != r[j]
  {
    if i < j {
      assert less(r[i], r[j]);
    } else {
      assert less(r[j], r[i]);
    }
  }
}
