/**
 * Python's `sorted()` on lists of strings and of integers. A list is sorted
 * by a total order; sorting keeps the elements (as a multiset), and two lists
 * sort to the same list exactly when they hold the same elements, which is
 * what the evaluators rely on when they compare `sorted(a) == sorted(b)`.
 */
module Sorting {

  ghost predicate IsTotalOrder<T(!new)>(leq: (T, T) -> bool) {
    && (forall a, b :: leq(a, b) && leq(b, a) ==> a == b)
    && (forall a, b, c :: leq(a, b) && leq(b, c) ==> leq(a, c))
    && (forall a, b :: leq(a, b) || leq(b, a))
  }

  predicate Sorted<T>(s: seq<T>, leq: (T, T) -> bool) {
    forall i, j :: 0 <= i < j < |s| ==> leq(s[i], s[j])
  }

  /** Inserts `x` into a list, before the first element that is not below it. */
  function Insert<T>(x: T, s: seq<T>, leq: (T, T) -> bool): (r: seq<T>)
    ensures multiset(r) == multiset(s) + multiset{x}
    ensures |r| == |s| + 1
  {
    if s == [] then [x]
    else if leq(x, s[0]) then [x] + s
    else
      assert s == [s[0]] + s[1..];
      [s[0]] + Insert(x, s[1..], leq)
  }

  lemma {:induction false} InsertKeepsSorted<T(!new)>(x: T, s: seq<T>, leq: (T, T) -> bool)
    requires IsTotalOrder(leq) && Sorted(s, leq)
    ensures Sorted(Insert(x, s, leq), leq)
  {
    if s != [] && !leq(x, s[0]) {
      var t := Insert(x, s[1..], leq);
      InsertKeepsSorted(x, s[1..], leq);
      assert leq(s[0], x);
      assert forall i :: 0 <= i < |s[1..]| ==> leq(s[0], s[1..][i]) by {
        forall i | 0 <= i < |s[1..]| ensures leq(s[0], s[1..][i]) { assert s[1..][i] == s[i + 1]; }
      }
      AllAbove(s[0], x, s[1..], t, leq);
      ConsSorted(s[0], t, leq);
    }
  }

  /** A sorted list stays sorted with a lower bound of its elements in front. */
  lemma ConsSorted<T>(y: T, t: seq<T>, leq: (T, T) -> bool)
    requires Sorted(t, leq) && forall j :: 0 <= j < |t| ==> leq(y, t[j])
    ensures Sorted([y] + t, leq)
  {
    var r := [y] + t;
    forall i, j | 0 <= i < j < |r| ensures leq(r[i], r[j]) {
      if i > 0 { assert r[i] == t[i - 1] && r[j] == t[j - 1]; }
      else { assert r[j] == t[j - 1]; }
    }
  }

  /** A list made of `x` and the elements of `s` stays above any lower bound of both. */
  lemma AllAbove<T>(y: T, x: T, s: seq<T>, t: seq<T>, leq: (T, T) -> bool)
    requires multiset(t) == multiset(s) + multiset{x}
    requires leq(y, x) && forall i :: 0 <= i < |s| ==> leq(y, s[i])
    ensures forall j :: 0 <= j < |t| ==> leq(y, t[j])
  {
    forall j | 0 <= j < |t| ensures leq(y, t[j]) {
      assert t[j] in multiset(t);
      if t[j] != x {
        assert t[j] in multiset(s);
        var k :| 0 <= k < |s| && s[k] == t[j];
      }
    }
  }

  /** `sorted(s)` as an insertion sort. */
  function Sort<T(!new)>(s: seq<T>, leq: (T, T) -> bool): (r: seq<T>)
    requires IsTotalOrder(leq)
    ensures multiset(r) == multiset(s)
    ensures Sorted(r, leq)
  {
    if s == [] then []
    else
      assert s == [s[0]] + s[1..];
      var t := Sort(s[1..], leq);
      InsertKeepsSorted(s[0], t, leq);
      Insert(s[0], t, leq)
  }

  /** Two sorted lists with the same elements are the same list. */
  lemma {:induction false} SortedUnique<T(!new)>(a: seq<T>, b: seq<T>, leq: (T, T) -> bool)
    requires IsTotalOrder(leq)
    requires Sorted(a, leq) && Sorted(b, leq)
    requires multiset(a) == multiset(b)
    ensures a == b
    decreases |a|
  {
    if a != [] {
      SameHead(a, b, leq);
      SameTailElements(a, b);
      SortedUnique(a[1..], b[1..], leq);
      assert a == [a[0]] + a[1..];
      assert b == [b[0]] + b[1..];
    }
  }

  /** Two non-empty sorted lists with the same elements start with the same element. */
  lemma SameHead<T(!new)>(a: seq<T>, b: seq<T>, leq: (T, T) -> bool)
    requires IsTotalOrder(leq)
    requires Sorted(a, leq) && Sorted(b, leq)
    requires multiset(a) == multiset(b) && a != []
    ensures b != [] && a[0] == b[0]
  {
    assert a[0] in multiset(b);
    var k :| 0 <= k < |b| && b[k] == a[0];
    assert b[0] in multiset(a);
    var m :| 0 <= m < |a| && a[m] == b[0];
    assert leq(b[0], a[0]) by { if k > 0 { assert leq(b[0], b[k]); } }
    assert leq(a[0], b[0]) by { if m > 0 { assert leq(a[0], a[m]); } }
  }

  /** Removing the same first element from two lists with the same elements leaves the same elements. */
  lemma SameTailElements<T>(a: seq<T>, b: seq<T>)
    requires a != [] && b != [] && a[0] == b[0] && multiset(a) == multiset(b)
    ensures multiset(a[1..]) == multiset(b[1..])
  {
    assert a == [a[0]] + a[1..];
    assert b == [b[0]] + b[1..];
    assert multiset(a[1..]) == multiset(a) - multiset{a[0]};
    assert multiset(b[1..]) == multiset(b) - multiset{b[0]};
  }

  /** `sorted(a) == sorted(b)` exactly when `a` and `b` hold the same elements. */
  lemma SortEqualIffSameElements<T(!new)>(a: seq<T>, b: seq<T>, leq: (T, T) -> bool)
    requires IsTotalOrder(leq)
    ensures Sort(a, leq) == Sort(b, leq) <==> multiset(a) == multiset(b)
  {
    if multiset(a) == multiset(b) {
      SortedUnique(Sort(a, leq), Sort(b, leq), leq);
    }
  }

  /** Python's ordering of strings: code point by code point, a proper prefix first. */
  predicate StrLeq(a: string, b: string) {
    if a == [] then true
    else if b == [] then false
    else if a[0] != b[0] then a[0] < b[0]
    else StrLeq(a[1..], b[1..])
  }

  lemma {:induction false} StrLeqAntisymmetric(a: string, b: string)
    requires StrLeq(a, b) && StrLeq(b, a)
    ensures a == b
  {
    if a != [] && b != [] {
      StrLeqAntisymmetric(a[1..], b[1..]);
      assert a == [a[0]] + a[1..] && b == [b[0]] + b[1..];
    }
  }

  lemma {:induction false} StrLeqTransitive(a: string, b: string, c: string)
    requires StrLeq(a, b) && StrLeq(b, c)
    ensures StrLeq(a, c)
  {
    if a != [] && b != [] && c != [] && a[0] == b[0] && b[0] == c[0] {
      StrLeqTransitive(a[1..], b[1..], c[1..]);
    }
  }

  lemma {:induction false} StrLeqTotal(a: string, b: string)
    ensures StrLeq(a, b) || StrLeq(b, a)
  {
    if a != [] && b != [] && a[0] == b[0] {
      StrLeqTotal(a[1..], b[1..]);
    }
  }

  lemma StrLeqIsTotalOrder()
    ensures IsTotalOrder(StrLeq)
  {
    forall a, b | StrLeq(a, b) && StrLeq(b, a) ensures a == b { StrLeqAntisymmetric(a, b); }
    forall a, b, c | StrLeq(a, b) && StrLeq(b, c) ensures StrLeq(a, c) { StrLeqTransitive(a, b, c); }
    forall a, b ensures StrLeq(a, b) || StrLeq(b, a) { StrLeqTotal(a, b); }
  }

  predicate IntLeq(a: int, b: int) { a <= b }

  lemma IntLeqIsTotalOrder()
    ensures IsTotalOrder(IntLeq)
  {
  }

  /** `sorted()` of a list of strings. */
  function SortStrings(s: seq<string>): (r: seq<string>)
    ensures multiset(r) == multiset(s) && Sorted(r, StrLeq)
  {
    StrLeqIsTotalOrder();
    Sort(s, StrLeq)
  }

  /** `sorted()` of a list of integers. */
  function SortInts(s: seq<int>): (r: seq<int>)
    ensures multiset(r) == multiset(s) && Sorted(r, IntLeq)
  {
    IntLeqIsTotalOrder();
    Sort(s, IntLeq)
  }

  /** `sorted(a) == sorted(b)` for string lists: the lists are permutations of each other. */
  lemma SortStringsEqualIff(a: seq<string>, b: seq<string>)
    ensures SortStrings(a) == SortStrings(b) <==> multiset(a) == multiset(b)
  {
    StrLeqIsTotalOrder();
    SortEqualIffSameElements(a, b, StrLeq);
  }

  /** `sorted(a) == sorted(b)` for integer lists: the lists are permutations of each other. */
  lemma SortIntsEqualIff(a: seq<int>, b: seq<int>)
    ensures SortInts(a) == SortInts(b) <==> multiset(a) == multiset(b)
  {
    IntLeqIsTotalOrder();
    SortEqualIffSameElements(a, b, IntLeq);
  }
}
