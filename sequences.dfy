/** The list operations of the Kotlin collections library that the app uses:
    `filter`, `distinct` and `sorted` (on strings). */
module Sequences {
  import opened KotlinStd

  /** `a` is an order-preserving subsequence of `b`: `b` with some elements
      dropped and nothing added or moved. */
  predicate IsSubsequence<T(==)>(a: seq<T>, b: seq<T>)
    decreases |a| + |b|
  {
    a == [] || (b != [] && ((a[0] == b[0] && IsSubsequence(a[1..], b[1..])) || IsSubsequence(a, b[1..])))
  }

  lemma {:induction false} SubsequenceTransitive<T>(a: seq<T>, b: seq<T>, c: seq<T>)
    requires IsSubsequence(a, b) && IsSubsequence(b, c)
    ensures IsSubsequence(a, c)
    decreases |c|
  {
    if a != [] {
      if b[0] == c[0] && IsSubsequence(b[1..], c[1..]) {
        if a[0] == b[0] && IsSubsequence(a[1..], b[1..]) {
          SubsequenceTransitive(a[1..], b[1..], c[1..]);
        } else {
          SubsequenceTransitive(a, b[1..], c[1..]);
        }
      } else {
        SubsequenceTransitive(a, b, c[1..]);
      }
    }
  }

  lemma {:induction false} SubsequenceLength<T>(a: seq<T>, b: seq<T>)
    requires IsSubsequence(a, b)
    ensures |a| <= |b|
    decreases |a| + |b|
  {
    if a != [] {
      if a[0] == b[0] && IsSubsequence(a[1..], b[1..]) {
        SubsequenceLength(a[1..], b[1..]);
      } else {
        SubsequenceLength(a, b[1..]);
      }
    }
  }

  lemma {:induction false} SubsequenceReflexive<T>(a: seq<T>)
    ensures IsSubsequence(a, a)
    decreases |a|
  {
    if a != [] { SubsequenceReflexive(a[1..]); }
  }

  /** A sub-list has no element the list lacks. */
  lemma {:induction false} SubsequenceMembers<T>(a: seq<T>, b: seq<T>)
    requires IsSubsequence(a, b)
    ensures forall x :: x in a ==> x in b
    decreases |a| + |b|
  {
    if a != [] {
      if a[0] == b[0] && IsSubsequence(a[1..], b[1..]) {
        SubsequenceMembers(a[1..], b[1..]);
        assert forall x :: x in b[1..] ==> x in b;
        assert a == [a[0]] + a[1..];
      } else {
        SubsequenceMembers(a, b[1..]);
        assert forall x :: x in b[1..] ==> x in b;
      }
    }
  }

  /** `List.filter(p)`: the elements satisfying `p`, in their original order,
      each with all its occurrences. */
  function Filter<T(==,!new)>(s: seq<T>, p: T -> bool): (r: seq<T>)
    ensures IsSubsequence(r, s)
    ensures |r| <= |s|
    ensures forall x :: x in r <==> x in s && p(x)
    ensures forall x :: multiset(r)[x] == if p(x) then multiset(s)[x] else 0
  {
    if s == [] then []
    else
      var rest := Filter(s[1..], p);
      assert s == [s[0]] + s[1..];
      if p(s[0]) then
        var r := [s[0]] + rest;
        assert r[1..] == rest;
        r
      else rest
  }

  /** Every element of `s` satisfies `p`, so filtering keeps everything. */
  lemma {:induction false} FilterAll<T(!new)>(s: seq<T>, p: T -> bool)
    requires forall x :: x in s ==> p(x)
    ensures Filter(s, p) == s
  {
    if s != [] {
      assert forall x :: x in s[1..] ==> x in s;
      FilterAll(s[1..], p);
    }
  }

  /** Filtering depends only on which elements the predicate accepts. */
  lemma {:induction false} FilterExtensional<T(!new)>(s: seq<T>, p: T -> bool, q: T -> bool)
    requires forall x :: p(x) == q(x)
    ensures Filter(s, p) == Filter(s, q)
  {
    if s != [] { FilterExtensional(s[1..], p, q); }
  }

  /** Filtering twice is filtering once by both predicates. */
  lemma {:induction false} FilterFilter<T(!new)>(s: seq<T>, p: T -> bool, q: T -> bool, both: T -> bool)
    requires forall x :: both(x) == (p(x) && q(x))
    ensures Filter(Filter(s, p), q) == Filter(s, both)
  {
    if s != [] {
      FilterFilter(s[1..], p, q, both);
      var rest := Filter(s[1..], p);
      if p(s[0]) {
        assert Filter(s, p) == [s[0]] + rest;
        assert ([s[0]] + rest)[1..] == rest;
      }
    }
  }

  /** A weaker predicate keeps a longer list: the stricter filter's result is
      a sub-list of the other's. */
  lemma {:induction false} FilterMonotone<T(!new)>(s: seq<T>, p: T -> bool, q: T -> bool)
    requires forall x :: p(x) ==> q(x)
    ensures IsSubsequence(Filter(s, p), Filter(s, q))
  {
    if s != [] {
      FilterMonotone(s[1..], p, q);
      var a := Filter(s[1..], p);
      var b := Filter(s[1..], q);
      if p(s[0]) {
        assert Filter(s, p) == [s[0]] + a && ([s[0]] + a)[1..] == a;
        assert Filter(s, q) == [s[0]] + b && ([s[0]] + b)[1..] == b;
      } else if q(s[0]) {
        assert Filter(s, q) == [s[0]] + b && ([s[0]] + b)[1..] == b;
        if a != [] {
          assert IsSubsequence(a, [s[0]] + b);
        }
      }
    }
  }

  predicate NoDuplicates<T(==)>(s: seq<T>) {
    forall i, j :: 0 <= i < j < |s| ==> s[i] != s[j]
  }

  function ToSet<T>(s: seq<T>): set<T> {
    set x | x in s
  }

  /** The position of the first occurrence of `x` in `s`. */
  function IndexOf<T(==)>(s: seq<T>, x: T): (i: nat)
    requires x in s
    ensures i < |s| && s[i] == x && x !in s[..i]
  {
    if s[0] == x then 0
    else
      var j := IndexOf(s[1..], x);
      assert s[..j + 1] == [s[0]] + s[1..][..j];
      j + 1
  }

  /** Appending after a list does not move the first occurrences in it. */
  lemma IndexOfPrefix<T>(s: seq<T>, t: seq<T>)
    ensures forall x :: x in s ==> IndexOf(s + t, x) == IndexOf(s, x)
  {
    forall x | x in s ensures IndexOf(s + t, x) == IndexOf(s, x) {
      var i, k := IndexOf(s, x), IndexOf(s + t, x);
      assert (s + t)[..i + 1] == s[..i + 1];
      assert x in (s + t)[..i + 1];
      assert k <= i;
      assert s[..k] == (s + t)[..k];
    }
  }

  /** An element new to `s` first occurs where it is appended. */
  lemma IndexOfAppended<T>(s: seq<T>, x: T)
    requires x !in s
    ensures IndexOf(s + [x], x) == |s|
  {
    var k := IndexOf(s + [x], x);
    assert forall i :: 0 <= i < |s| ==> (s + [x])[i] == s[i];
  }

  /** Appending the same element at the end of both lists keeps a sub-list. */
  lemma {:induction false} SubsequenceSnoc<T>(a: seq<T>, b: seq<T>, x: T)
    requires IsSubsequence(a, b)
    ensures IsSubsequence(a, b + [x]) && IsSubsequence(a + [x], b + [x])
    decreases |a| + |b|
  {
    if b == [] {
      assert [x][1..] == [];
    } else {
      assert (b + [x])[1..] == b[1..] + [x];
      if a == [] {
        SubsequenceSnoc(a, b[1..], x);
      } else {
        assert (a + [x])[1..] == a[1..] + [x];
        if a[0] == b[0] && IsSubsequence(a[1..], b[1..]) {
          SubsequenceSnoc(a[1..], b[1..], x);
        } else {
          SubsequenceSnoc(a, b[1..], x);
        }
      }
    }
  }

  /** `List.distinct()`: the first occurrence of every element, as a sub-list
      ordered by where the elements first occur. */
  function Distinct<T(==,!new)>(s: seq<T>): (r: seq<T>)
    ensures NoDuplicates(r)
    ensures forall x :: x in r <==> x in s
    ensures IsSubsequence(r, s) && |r| <= |s|
    ensures forall i, j :: 0 <= i < j < |r| ==> IndexOf(s, r[i]) < IndexOf(s, r[j])
  {
    if s == [] then []
    else
      var init := s[..|s| - 1];
      var d := Distinct(init);
      var last := s[|s| - 1];
      assert s == init + [last];
      SubsequenceSnoc(d, init, last);
      IndexOfPrefix(init, [last]);
      if last in d then
        SubsequenceLength(d, s);
        d
      else
        IndexOfAppended(init, last);
        assert forall i :: 0 <= i < |d| ==> (d + [last])[i] == d[i];
        SubsequenceLength(d + [last], s);
        d + [last]
  }

  /** A sequence without repetitions has as many elements as its set. */
  lemma {:induction false} NoDuplicatesCardinality<T>(s: seq<T>)
    requires NoDuplicates(s)
    ensures |ToSet(s)| == |s|
  {
    if s != [] {
      var init := s[..|s| - 1];
      NoDuplicatesCardinality(init);
      assert ToSet(s) == ToSet(init) + {s[|s| - 1]};
      assert s[|s| - 1] !in ToSet(init);
    }
  }

  /** A subset is no larger. */
  lemma {:induction false} SubsetCardinality<T>(a: set<T>, b: set<T>)
    requires a <= b
    ensures |a| <= |b|
    decreases |a|
  {
    if a != {} {
      var x :| x in a;
      SubsetCardinality(a - {x}, b - {x});
    }
  }

  /** `distinct().size` counts the different elements. */
  lemma DistinctCountsElements<T(!new)>(s: seq<T>)
    ensures |Distinct(s)| == |ToSet(s)|
  {
    var d := Distinct(s);
    NoDuplicatesCardinality(d);
    assert ToSet(d) == ToSet(s);
  }

  // ---------------------------------------------------------------------------
  // Sorting strings with String.compareTo

  predicate LexLessEq(a: string, b: string) {
    a == b || LexLess(a, b)
  }

  /** Non-decreasing under `String.compareTo`. */
  predicate Sorted(s: seq<string>) {
    forall i, j :: 0 <= i < j < |s| ==> LexLessEq(s[i], s[j])
  }

  /** Strictly increasing under `String.compareTo`. */
  predicate StrictlySorted(s: seq<string>) {
    forall i, j :: 0 <= i < j < |s| ==> LexLess(s[i], s[j])
  }

  lemma LexLessEqTransitive(a: string, b: string, c: string)
    requires LexLessEq(a, b) && LexLessEq(b, c)
    ensures LexLessEq(a, c)
  {
    if a != b && b != c { LexLessTransitive(a, b, c); }
  }

  /** Places `x` into a sorted sequence. */
  function Insert(x: string, s: seq<string>): (r: seq<string>)
    requires Sorted(s)
    ensures Sorted(r)
    ensures multiset(r) == multiset(s) + multiset{x}
  {
    if s == [] then [x]
    else if !LexLess(s[0], x) then
      var r := [x] + s;
      assert Sorted(r) by {
        if x != s[0] { LexLessTotal(x, s[0]); }
        forall j | 0 < j < |r| ensures LexLessEq(x, r[j]) {
          if j > 1 { LexLessEqTransitive(x, s[0], s[j - 1]); }
        }
      }
      assert s == [s[0]] + s[1..];
      r
    else
      var rest := Insert(x, s[1..]);
      var r := [s[0]] + rest;
      assert s == [s[0]] + s[1..];
      assert Sorted(r) by {
        forall j | 0 < j < |r| ensures LexLessEq(s[0], r[j]) {
          assert r[j] in multiset(rest);
          assert r[j] == x || r[j] in s[1..];
        }
      }
      r
  }

  /** `List<String>.sorted()`: the same elements, in non-decreasing order. */
  function SortStrings(s: seq<string>): (r: seq<string>)
    ensures Sorted(r)
    ensures multiset(r) == multiset(s)
  {
    if s == [] then []
    else
      assert s == [s[0]] + s[1..];
      Insert(s[0], SortStrings(s[1..]))
  }

  /** `distinct().sorted()`: every element once, in increasing order. */
  function SortedDistinct(s: seq<string>): (r: seq<string>)
    ensures StrictlySorted(r)
    ensures forall x :: x in r <==> x in s
  {
    var d := Distinct(s);
    var r := SortStrings(d);
    SortedPermutationOfDistinct(d, r);
    assert forall x :: x in r <==> x in multiset(d);
    r
  }

  /** A sorted rearrangement of a sequence without repetitions is strictly
      increasing. */
  lemma SortedPermutationOfDistinct(d: seq<string>, r: seq<string>)
    requires NoDuplicates(d) && Sorted(r) && multiset(r) == multiset(d)
    ensures StrictlySorted(r)
  {
    forall i, j | 0 <= i < j < |r| ensures LexLess(r[i], r[j]) {
      if r[i] == r[j] {
        var v := r[i];
        assert r == r[..j] + r[j..];
        assert v in r[..j] && v == r[j..][0];
        assert multiset(r)[v] == multiset(r[..j])[v] + multiset(r[j..])[v];
        SingleOccurrence(d, v);
      }
    }
  }

  lemma {:induction false} SingleOccurrence<T>(s: seq<T>, x: T)
    requires NoDuplicates(s)
    ensures multiset(s)[x] <= 1
  {
    if s != [] {
      var init := s[..|s| - 1];
      assert s == init + [s[|s| - 1]];
      SingleOccurrence(init, x);
      if x == s[|s| - 1] { assert x !in init; }
    }
  }

  lemma StrictlySortedNoDuplicates(a: seq<string>)
    requires StrictlySorted(a)
    ensures NoDuplicates(a)
  {
    forall i, j | 0 <= i < j < |a| ensures a[i] != a[j] {
      LexLessIrreflexive(a[i]);
    }
  }

  /** The first element of a strictly increasing sequence is its least one. */
  lemma HeadIsLeast(a: seq<string>, x: string)
    requires StrictlySorted(a) && a != [] && x in a && x != a[0]
    ensures LexLess(a[0], x) && x in a[1..]
  {
    var k :| 0 <= k < |a| && a[k] == x;
    assert k > 0;
  }

  /** A strictly increasing sequence is determined by its elements: so
      `distinct().sorted()` is THE sorted list of the distinct elements. */
  lemma {:induction false} StrictlySortedUnique(a: seq<string>, b: seq<string>)
    requires StrictlySorted(a) && StrictlySorted(b)
    requires forall x :: x in a <==> x in b
    ensures a == b
    decreases |a|
  {
    if a != [] {
      assert a[0] in b;
      assert b[0] in a;
      if a[0] != b[0] {
        HeadIsLeast(a, b[0]);
        HeadIsLeast(b, a[0]);
        LexLessAsymmetric(a[0], b[0]);
      }
      forall x ensures x in a[1..] <==> x in b[1..] {
        if x in a[1..] {
          var i :| 1 <= i < |a| && a[i] == x;
          assert LexLess(a[0], x);
          LexLessIrreflexive(x);
          HeadIsLeast(b, x);
        }
        if x in b[1..] {
          var i :| 1 <= i < |b| && b[i] == x;
          assert LexLess(b[0], x);
          LexLessIrreflexive(x);
          HeadIsLeast(a, x);
        }
      }
      StrictlySortedUnique(a[1..], b[1..]);
      assert a == [a[0]] + a[1..] && b == [b[0]] + b[1..];
    } else {
      StrictlySortedNoDuplicates(b);
      NoDuplicatesCardinality(b);
      assert ToSet(b) == ToSet(a);
    }
  }
}
