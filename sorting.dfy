/**
 * `Array.prototype.sort(compareFn)` as the stores' sorting code relies on it:
 * a stable sort driven by a comparator that returns a negative number, zero or
 * a positive number. The functional `Sort` is a stable insertion sort; the
 * in-place `SortInPlace` is proved to compute it.
 */
module Sorting {

  /**
   * What a comparator must satisfy for the sort to be meaningful: the sign is
   * antisymmetric and "not after" (`cmp(a, b) <= 0`) is transitive. Subtracting
   * integer keys satisfies it; `localeCompare` is taken to.
   */
  ghost predicate Consistent<T(!new)>(cmp: (T, T) -> int) {
    && (forall a, b :: cmp(a, b) > 0 <==> cmp(b, a) < 0)
    && (forall a, b, c :: cmp(a, b) <= 0 && cmp(b, c) <= 0 ==> cmp(a, c) <= 0)
  }

  /** No element is ranked after a later one. */
  ghost predicate Sorted<T>(s: seq<T>, cmp: (T, T) -> int) {
    forall i, j :: 0 <= i < j < |s| ==> cmp(s[i], s[j]) <= 0
  }

  /** Insert `x` into `t` after every element that is not ranked strictly after it. */
  function Insert<T>(t: seq<T>, x: T, cmp: (T, T) -> int): (r: seq<T>)
    ensures |r| == |t| + 1
  {
    if |t| == 0 then [x]
    else if cmp(t[|t| - 1], x) > 0 then Insert(t[..|t| - 1], x, cmp) + [t[|t| - 1]]
    else t + [x]
  }

  /** Stable insertion sort: each element, from left to right, is inserted into the sorted prefix. */
  function Sort<T>(s: seq<T>, cmp: (T, T) -> int): (r: seq<T>)
    ensures |r| == |s|
  {
    if |s| == 0 then [] else Insert(Sort(s[..|s| - 1], cmp), s[|s| - 1], cmp)
  }

  /** The elements the comparator ranks equal to `x`, in the order they occur in `s`. */
  ghost function Equivalents<T>(s: seq<T>, x: T, cmp: (T, T) -> int): seq<T> {
    if |s| == 0 then []
    else Equivalents(s[..|s| - 1], x, cmp) + (if cmp(s[|s| - 1], x) == 0 then [s[|s| - 1]] else [])
  }

  lemma {:induction false} InsertPermutation<T>(t: seq<T>, x: T, cmp: (T, T) -> int)
    ensures multiset(Insert(t, x, cmp)) == multiset(t) + multiset{x}
  {
    if |t| > 0 && cmp(t[|t| - 1], x) > 0 {
      InsertPermutation(t[..|t| - 1], x, cmp);
      SnocMultiset(t, t[..|t| - 1], t[|t| - 1]);
    }
  }

  /** Sorting only reorders: the result is a permutation of the input. */
  lemma {:induction false} SortPermutation<T>(s: seq<T>, cmp: (T, T) -> int)
    ensures multiset(Sort(s, cmp)) == multiset(s)
  {
    if |s| > 0 {
      var init, last := s[..|s| - 1], s[|s| - 1];
      SortPermutation(init, cmp);
      InsertPermutation(Sort(init, cmp), last, cmp);
      SnocMultiset(s, init, last);
    }
  }

  lemma SnocMultiset<T>(s: seq<T>, init: seq<T>, last: T)
    requires |s| > 0 && init == s[..|s| - 1] && last == s[|s| - 1]
    ensures multiset(s) == multiset(init) + multiset{last}
  {
    assert s == init + [last];
  }

  /** Every element of `s` is ranked not after `b`. */
  ghost predicate AllNotAfter<T>(s: seq<T>, b: T, cmp: (T, T) -> int) {
    forall i :: 0 <= i < |s| ==> cmp(s[i], b) <= 0
  }

  lemma {:induction false} InsertNotAfter<T>(t: seq<T>, x: T, b: T, cmp: (T, T) -> int)
    requires AllNotAfter(t, b, cmp) && cmp(x, b) <= 0
    ensures AllNotAfter(Insert(t, x, cmp), b, cmp)
  {
    if |t| > 0 && cmp(t[|t| - 1], x) > 0 {
      InsertNotAfter(t[..|t| - 1], x, b, cmp);
    }
  }

  lemma {:induction false} InsertSorted<T(!new)>(t: seq<T>, x: T, cmp: (T, T) -> int)
    requires Consistent(cmp) && Sorted(t, cmp)
    ensures Sorted(Insert(t, x, cmp), cmp)
  {
    if |t| > 0 {
      var last := t[|t| - 1];
      var front := t[..|t| - 1];
      if cmp(last, x) > 0 {
        InsertSorted(front, x, cmp);
        assert AllNotAfter(front, last, cmp);
        InsertNotAfter(front, x, last, cmp);
        SortedSnoc(Insert(front, x, cmp), last, cmp);
      } else {
        assert AllNotAfter(t, x, cmp);
        SortedSnoc(t, x, cmp);
      }
    }
  }

  lemma SortedSnoc<T>(t: seq<T>, x: T, cmp: (T, T) -> int)
    requires Sorted(t, cmp) && AllNotAfter(t, x, cmp)
    ensures Sorted(t + [x], cmp)
  {
    var u := t + [x];
    forall i, j | 0 <= i < j < |u|
      ensures cmp(u[i], u[j]) <= 0
    {
      if j == |t| {
        assert u[i] == t[i];
      }
    }
  }

  /** With a consistent comparator the result is in order. */
  lemma {:induction false} SortSorted<T(!new)>(s: seq<T>, cmp: (T, T) -> int)
    requires Consistent(cmp)
    ensures Sorted(Sort(s, cmp), cmp)
  {
    if |s| > 0 {
      SortSorted(s[..|s| - 1], cmp);
      InsertSorted(Sort(s[..|s| - 1], cmp), s[|s| - 1], cmp);
    }
  }

  lemma {:induction false} EquivalentsConcat<T>(a: seq<T>, b: seq<T>, x: T, cmp: (T, T) -> int)
    ensures Equivalents(a + b, x, cmp) == Equivalents(a, x, cmp) + Equivalents(b, x, cmp)
  {
    if |b| == 0 {
      assert a + b == a;
    } else {
      assert (a + b)[..|a + b| - 1] == a + b[..|b| - 1];
      EquivalentsConcat(a, b[..|b| - 1], x, cmp);
    }
  }

  lemma {:induction false} InsertStable<T(!new)>(t: seq<T>, y: T, x: T, cmp: (T, T) -> int)
    requires Consistent(cmp)
    ensures Equivalents(Insert(t, y, cmp), x, cmp)
         == Equivalents(t, x, cmp) + (if cmp(y, x) == 0 then [y] else [])
  {
    if |t| == 0 {
      assert Equivalents([y], x, cmp) == Equivalents([], x, cmp) + (if cmp(y, x) == 0 then [y] else []);
    } else {
      var last := t[|t| - 1];
      var front := t[..|t| - 1];
      if cmp(last, y) > 0 {
        InsertStable(front, y, x, cmp);
        EquivalentsConcat(Insert(front, y, cmp), [last], x, cmp);
        assert Equivalents([last], x, cmp) == Equivalents([], x, cmp) + (if cmp(last, x) == 0 then [last] else []);
        // `last` and `y` are never both equivalent to `x`, since `last` ranks after `y`
        assert !(cmp(last, x) == 0 && cmp(y, x) == 0);
      } else {
        var u := t + [y];
        assert Insert(t, y, cmp) == u;
        assert u[..|u| - 1] == t && u[|u| - 1] == y;
      }
    }
  }

  /** Stability: the elements ranked equal to any `x` keep their relative order. */
  lemma {:induction false} SortStable<T(!new)>(s: seq<T>, x: T, cmp: (T, T) -> int)
    requires Consistent(cmp)
    ensures Equivalents(Sort(s, cmp), x, cmp) == Equivalents(s, x, cmp)
  {
    if |s| > 0 {
      SortStable(s[..|s| - 1], x, cmp);
      InsertStable(Sort(s[..|s| - 1], cmp), s[|s| - 1], x, cmp);
    }
  }

  lemma {:induction false} InsertAgree<T>(t: seq<T>, x: T, c1: (T, T) -> int, c2: (T, T) -> int)
    requires forall a, b :: c1(a, b) == c2(a, b)
    ensures Insert(t, x, c1) == Insert(t, x, c2)
  {
    if |t| > 0 && c1(t[|t| - 1], x) > 0 {
      InsertAgree(t[..|t| - 1], x, c1, c2);
    }
  }

  /** Two comparators that give the same answers sort alike. */
  lemma {:induction false} SortAgree<T>(s: seq<T>, c1: (T, T) -> int, c2: (T, T) -> int)
    requires forall a, b :: c1(a, b) == c2(a, b)
    ensures Sort(s, c1) == Sort(s, c2)
  {
    if |s| > 0 {
      SortAgree(s[..|s| - 1], c1, c2);
      InsertAgree(Sort(s[..|s| - 1], c1), s[|s| - 1], c1, c2);
    }
  }

  /** No two distinct elements of `s` are ranked equal. */
  ghost predicate NoTies<T>(s: seq<T>, cmp: (T, T) -> int) {
    forall a, b :: a in s && b in s && cmp(a, b) == 0 ==> a == b
  }

  /** The first elements of two sorted orderings of the same elements, with no ties, agree. */
  lemma SortedHeads<T(!new)>(r1: seq<T>, r2: seq<T>, cmp: (T, T) -> int)
    requires Consistent(cmp) && Sorted(r1, cmp) && Sorted(r2, cmp)
    requires multiset(r1) == multiset(r2) && NoTies(r1, cmp) && |r1| > 0 && |r2| > 0
    ensures r1[0] == r2[0]
  {
    var x, y := r1[0], r2[0];
    assert y in multiset(r1) && x in multiset(r2);
    var k :| 0 <= k < |r1| && r1[k] == y;
    var m :| 0 <= m < |r2| && r2[m] == x;
    assert cmp(x, y) <= 0 by {
      if k > 0 { assert cmp(r1[0], r1[k]) <= 0; }
    }
    assert cmp(y, x) <= 0 by {
      if m > 0 { assert cmp(r2[0], r2[m]) <= 0; }
    }
  }

  lemma SameTails<T>(r1: seq<T>, r2: seq<T>)
    requires multiset(r1) == multiset(r2) && |r1| > 0 && |r2| > 0 && r1[0] == r2[0]
    ensures multiset(r1[1..]) == multiset(r2[1..])
  {
    assert r1 == [r1[0]] + r1[1..] && r2 == [r2[0]] + r2[1..];
    assert multiset(r1[1..]) == multiset(r1) - multiset{r1[0]};
    assert multiset(r2[1..]) == multiset(r2) - multiset{r2[0]};
  }

  lemma SortedTail<T>(r: seq<T>, cmp: (T, T) -> int)
    requires Sorted(r, cmp) && |r| > 0
    ensures Sorted(r[1..], cmp)
  {
  }

  lemma NoTiesTail<T>(r: seq<T>, cmp: (T, T) -> int)
    requires NoTies(r, cmp) && |r| > 0
    ensures NoTies(r[1..], cmp)
  {
    assert forall a :: a in r[1..] ==> a in r;
  }

  lemma SameHeadAndTail<T>(r1: seq<T>, r2: seq<T>)
    requires |r1| > 0 && |r2| > 0 && r1[0] == r2[0] && r1[1..] == r2[1..]
    ensures r1 == r2
  {
    assert r1 == [r1[0]] + r1[1..] && r2 == [r2[0]] + r2[1..];
  }

  /** Two orderings of the same elements that are both sorted, with no ties, are the same list. */
  lemma {:induction false} SortedUnique<T(!new)>(r1: seq<T>, r2: seq<T>, cmp: (T, T) -> int)
    requires Consistent(cmp) && Sorted(r1, cmp) && Sorted(r2, cmp)
    requires multiset(r1) == multiset(r2) && NoTies(r1, cmp)
    ensures r1 == r2
  {
    assert |r1| == |multiset(r1)| == |multiset(r2)| == |r2|;
    if |r1| > 0 {
      SortedHeads(r1, r2, cmp);
      SameTails(r1, r2);
      SortedTail(r1, cmp);
      SortedTail(r2, cmp);
      NoTiesTail(r1, cmp);
      SortedUnique(r1[1..], r2[1..], cmp);
      SameHeadAndTail(r1, r2);
    }
  }

  function Reverse<T>(s: seq<T>): (r: seq<T>)
    ensures |r| == |s|
    ensures forall i :: 0 <= i < |s| ==> r[i] == s[|s| - 1 - i]
  {
    if |s| == 0 then [] else [s[|s| - 1]] + Reverse(s[..|s| - 1])
  }

  lemma {:induction false} ReversePermutation<T>(s: seq<T>)
    ensures multiset(Reverse(s)) == multiset(s)
  {
    if |s| > 0 {
      ReversePermutation(s[..|s| - 1]);
      SnocMultiset(s, s[..|s| - 1], s[|s| - 1]);
    }
  }

  /**
   * Sorting with the arguments of the comparator swapped gives the reverse of
   * sorting with the comparator, when no two elements are ranked equal.
   */
  lemma SwappedSortReverses<T(!new)>(s: seq<T>, cmp: (T, T) -> int, swapped: (T, T) -> int)
    requires Consistent(cmp) && NoTies(s, cmp)
    requires forall a, b :: swapped(a, b) == cmp(b, a)
    ensures Sort(s, swapped) == Reverse(Sort(s, cmp))
  {
    var up := Sort(s, cmp);
    var down := Sort(s, swapped);
    SwappedConsistent(cmp, swapped);
    SortSorted(s, cmp);
    SortSorted(s, swapped);
    SortPermutation(s, cmp);
    SortPermutation(s, swapped);
    ReversePermutation(up);
    ReverseSorted(up, cmp, swapped);
    NoTiesSwapped(down, s, cmp, swapped);
    SortedUnique(down, Reverse(up), swapped);
  }

  lemma SwappedConsistent<T(!new)>(cmp: (T, T) -> int, swapped: (T, T) -> int)
    requires Consistent(cmp)
    requires forall a, b :: swapped(a, b) == cmp(b, a)
    ensures Consistent(swapped)
  {
  }

  /** Read backwards, a sorted list is sorted for the swapped comparator. */
  lemma ReverseSorted<T>(up: seq<T>, cmp: (T, T) -> int, swapped: (T, T) -> int)
    requires Sorted(up, cmp)
    requires forall a, b :: swapped(a, b) == cmp(b, a)
    ensures Sorted(Reverse(up), swapped)
  {
    var rev := Reverse(up);
    forall i, j | 0 <= i < j < |rev|
      ensures swapped(rev[i], rev[j]) <= 0
    {
      assert cmp(up[|up| - 1 - j], up[|up| - 1 - i]) <= 0;
    }
  }

  /** A reordering of a list without ties has none for the swapped comparator either. */
  lemma NoTiesSwapped<T>(down: seq<T>, s: seq<T>, cmp: (T, T) -> int, swapped: (T, T) -> int)
    requires multiset(down) == multiset(s) && NoTies(s, cmp)
    requires forall a, b :: swapped(a, b) == cmp(b, a)
    ensures NoTies(down, swapped)
  {
    forall a, b | a in down && b in down && swapped(a, b) == 0
      ensures a == b
    {
      assert a in multiset(down) && b in multiset(down);
      assert a in multiset(s) && b in multiset(s);
    }
  }

  /** Three elements each ranked after the next come out reversed. */
  lemma SortThreeReversed<T>(a: T, b: T, c: T, cmp: (T, T) -> int)
    requires cmp(a, b) > 0 && cmp(a, c) > 0 && cmp(b, c) > 0
    ensures Sort([a, b, c], cmp) == [c, b, a]
  {
    assert [a, b, c][..2] == [a, b] && [a, b][..1] == [a] && [b, a][..1] == [b];
    assert Sort([a], cmp) == [a];
    assert Sort([a, b], cmp) == Insert([a], b, cmp) == [b, a];
    assert Insert([b], c, cmp) == [c, b];
    assert Insert([b, a], c, cmp) == [c, b, a];
  }

  /**
   * One step of insertion sort: `a[i]` is shifted left past the elements of the
   * prefix `a[..i]` that are ranked strictly after it.
   */
  method InsertAt<T>(a: array<T>, i: nat, cmp: (T, T) -> int)
    requires i < a.Length
    modifies a
    ensures a[..i + 1] == Insert(old(a[..i]), old(a[i]), cmp)
    ensures a[i + 1..] == old(a[i + 1..])
  {
    var x := a[i];
    ghost var p, rest := a[..i], a[i + 1..];
    ghost var hole := x;
    StartLayout(a[..], i);
    var j := i;
    while j > 0 && cmp(a[j - 1], x) > 0
      invariant 0 <= j <= i == |p|
      invariant a[..] == p[..j] + [hole] + p[j..] + rest
      invariant Insert(p, x, cmp) == Insert(p[..j], x, cmp) + p[j..]
    {
      LayoutBefore(p, j, hole, rest);
      InsertShift(p, j, x, cmp);
      ShiftLayout(p, j, hole, rest);
      a[j] := a[j - 1];
      hole := p[j - 1];
      j := j - 1;
    }
    if j > 0 {
      LayoutBefore(p, j, hole, rest);
    }
    InsertStop(p, j, x, cmp);
    FillLayout(p, j, hole, x, rest);
    a[j] := x;
  }

  /** Before any shift, the hole is at `i` and holds the element being inserted. */
  lemma StartLayout<T>(b: seq<T>, i: nat)
    requires i < |b|
    ensures b[..i][..i] == b[..i] && b[..i][i..] == []
    ensures b == b[..i][..i] + [b[i]] + b[..i][i..] + b[i + 1..]
  {
  }

  /** Left of the hole, the array holds the prefix as it was. */
  lemma LayoutBefore<T>(p: seq<T>, j: nat, hole: T, rest: seq<T>)
    requires 0 < j <= |p|
    ensures (p[..j] + [hole] + p[j..] + rest)[j - 1] == p[j - 1]
  {
  }

  /** Copying the element left of the hole into it moves the hole one place left. */
  lemma ShiftLayout<T>(p: seq<T>, j: nat, hole: T, rest: seq<T>)
    requires 0 < j <= |p|
    ensures (p[..j] + [hole] + p[j..] + rest)[j := p[j - 1]] == p[..j - 1] + [p[j - 1]] + p[j - 1..] + rest
  {
    assert p[j - 1..] == [p[j - 1]] + p[j..];
  }

  /** Writing the inserted element into the hole. */
  lemma FillLayout<T>(p: seq<T>, j: nat, hole: T, x: T, rest: seq<T>)
    requires j <= |p|
    ensures var b := (p[..j] + [hole] + p[j..] + rest)[j := x];
      b[..|p| + 1] == p[..j] + [x] + p[j..] && b[|p| + 1..] == rest
  {
    var b := (p[..j] + [hole] + p[j..] + rest)[j := x];
    assert b == p[..j] + [x] + p[j..] + rest;
  }

  lemma InsertShift<T>(p: seq<T>, j: nat, x: T, cmp: (T, T) -> int)
    requires 0 < j <= |p| && cmp(p[j - 1], x) > 0
    ensures Insert(p[..j], x, cmp) + p[j..] == Insert(p[..j - 1], x, cmp) + p[j - 1..]
  {
    assert p[..j][..j - 1] == p[..j - 1];
    assert p[j - 1..] == [p[j - 1]] + p[j..];
  }

  lemma InsertStop<T>(p: seq<T>, j: nat, x: T, cmp: (T, T) -> int)
    requires j <= |p| && (j == 0 || cmp(p[j - 1], x) <= 0)
    ensures Insert(p[..j], x, cmp) == p[..j] + [x]
  {
  }

  /** `[...a]`: a new array with the same contents. */
  method Copy<T>(a: array<T>) returns (r: array<T>)
    ensures fresh(r) && r[..] == a[..]
  {
    r := new T[a.Length](i requires 0 <= i < a.Length reads a => a[i]);
  }

  /** Sorting an array in place, by insertion: the array ends up holding `Sort` of its old contents. */
  method SortInPlace<T(!new)>(a: array<T>, cmp: (T, T) -> int)
    modifies a
    ensures a[..] == Sort(old(a[..]), cmp)
    ensures multiset(a[..]) == multiset(old(a[..]))
    ensures Consistent(cmp) ==> Sorted(a[..], cmp)
  {
    var i := 0;
    while i < a.Length
      invariant 0 <= i <= a.Length
      invariant a[..i] == Sort(old(a[..i]), cmp)
      invariant a[i..] == old(a[i..])
    {
      InsertAt(a, i, cmp);
      assert old(a[..i + 1])[..i] == old(a[..i]);
      i := i + 1;
    }
    assert a[..] == a[..a.Length];
    assert old(a[..]) == old(a[..a.Length]);
    SortPermutation(old(a[..]), cmp);
    if Consistent(cmp) {
      SortSorted(old(a[..]), cmp);
    }
  }
}
