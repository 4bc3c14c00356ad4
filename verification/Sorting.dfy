/**
  Sorting by a strict order: a rearrangement, in order, and determined by what is
  sorted alone.

  Nothing that is sorted may occur twice; then the order need not be total on values
  that are not sorted together.
 */
module Sorting {

  type Less<!T> = (T, T) -> bool

  ghost predicate StrictOrder<T(!new)>(less: Less<T>) {
    && (forall a: T :: !less(a, a))
    && forall a: T, b: T, c: T :: less(a, b) && less(b, c) ==> less(a, c)
  }

  ghost predicate StrictTotal<T(!new)>(less: Less<T>) {
    StrictOrder(less) && forall a: T, b: T :: a != b ==> less(a, b) || less(b, a)
  }

  /** Nothing occurs twice in `s`, and any two of its elements are ordered. */
  ghost predicate Comparable<T>(s: seq<T>, less: Less<T>) {
    && (forall x :: x in multiset(s) ==> multiset(s)[x] == 1)
    && forall x, y :: x in s && y in s ==> x == y || less(x, y) || less(y, x)
  }

  predicate Sorted<T>(s: seq<T>, less: Less<T>) {
    forall i, j :: 0 <= i < j < |s| ==> less(s[i], s[j])
  }

  function Insert<T>(e: T, sorted: seq<T>, less: Less<T>): seq<T>
    decreases |sorted|
  {
    if sorted == [] || !less(sorted[0], e) then [e] + sorted
    else [sorted[0]] + Insert(e, sorted[1..], less)
  }

  function Sort<T>(s: seq<T>, less: Less<T>): seq<T>
    decreases |s|
  {
    if s == [] then [] else Insert(s[0], Sort(s[1..], less), less)
  }

  /** Sorting is stable: where no element is less than an earlier one, everything stays in its place. */
  lemma {:induction false} SortLeavesOrdered<T>(s: seq<T>, less: Less<T>)
    requires forall i, j :: 0 <= i < j < |s| ==> !less(s[j], s[i])
    ensures Sort(s, less) == s
    decreases |s|
  {
    if s == [] {
    } else {
      SortLeavesOrdered(s[1..], less);
      assert s == [s[0]] + s[1..];
    }
  }

  lemma Counted<T>(x: T, s: seq<T>)
    ensures multiset([x] + s) == multiset{x} + multiset(s)
  {
  }

  lemma HeadCounted<T>(s: seq<T>)
    requires s != []
    ensures multiset(s) == multiset{s[0]} + multiset(s[1..])
  {
    assert s == [s[0]] + s[1..];
    Counted(s[0], s[1..]);
  }

  // ---------------------------------------------------------------------
  // A rearrangement
  // ---------------------------------------------------------------------

  lemma {:induction false} InsertKeeps<T>(e: T, sorted: seq<T>, less: Less<T>)
    ensures multiset(Insert(e, sorted, less)) == multiset{e} + multiset(sorted)
    decreases |sorted|
  {
    if sorted == [] || !less(sorted[0], e) {
    } else {
      InsertKeeps(e, sorted[1..], less);
      assert sorted == [sorted[0]] + sorted[1..];
    }
  }

  lemma {:induction false} SortKeeps<T>(s: seq<T>, less: Less<T>)
    ensures multiset(Sort(s, less)) == multiset(s)
    decreases |s|
  {
    if s == [] {
    } else {
      SortKeeps(s[1..], less);
      InsertKeeps(s[0], Sort(s[1..], less), less);
      assert s == [s[0]] + s[1..];
    }
  }

  lemma SameElements<T>(a: seq<T>, b: seq<T>)
    requires multiset(a) == multiset(b)
    ensures |a| == |b| && forall x :: x in a <==> x in b
  {
    assert |a| == |multiset(a)| && |b| == |multiset(b)|;
    forall x ensures x in a <==> x in b {
      assert x in a <==> x in multiset(a);
      assert x in b <==> x in multiset(b);
    }
  }

  // ---------------------------------------------------------------------
  // In order
  // ---------------------------------------------------------------------

  lemma FirstIsLeast<T>(s: seq<T>, x: T, less: Less<T>)
    requires Sorted(s, less) && x in s
    ensures x == s[0] || less(s[0], x)
  {
    var i :| 0 <= i < |s| && s[i] == x;
  }

  lemma TailSorted<T>(s: seq<T>, less: Less<T>)
    requires s != [] && Sorted(s, less)
    ensures Sorted(s[1..], less)
  {
  }

  lemma FrontSorts<T>(x: T, tail: seq<T>, less: Less<T>)
    requires Sorted(tail, less) && forall y :: y in tail ==> less(x, y)
    ensures Sorted([x] + tail, less)
  {
    var all := [x] + tail;
    forall i, j | 0 <= i < j < |all| ensures less(all[i], all[j]) {
      assert all[j] == tail[j - 1];
      if i > 0 {
        assert all[i] == tail[i - 1];
      }
    }
  }

  /** What comes before the first element of a sorted sequence comes before all of it. */
  lemma BeforeFirst<T(!new)>(x: T, sorted: seq<T>, less: Less<T>)
    requires StrictOrder(less) && Sorted(sorted, less) && sorted != [] && less(x, sorted[0])
    ensures forall y :: y in sorted ==> less(x, y)
  {
    forall y | y in sorted ensures less(x, y) {
      FirstIsLeast(sorted, y, less);
    }
  }

  lemma {:induction false} InsertSorts<T(!new)>(e: T, sorted: seq<T>, less: Less<T>)
    requires StrictOrder(less) && Sorted(sorted, less)
    requires forall x :: x in sorted ==> less(e, x) || less(x, e)
    ensures Sorted(Insert(e, sorted, less), less)
    decreases |sorted|
  {
    if sorted == [] {
    } else if less(sorted[0], e) {
      var tail := Insert(e, sorted[1..], less);
      TailSorted(sorted, less);
      InsertSorts(e, sorted[1..], less);
      InsertKeeps(e, sorted[1..], less);
      SameElements(tail, [e] + sorted[1..]);
      FrontSorts(sorted[0], tail, less);
    } else {
      assert sorted[0] in sorted;
      BeforeFirst(e, sorted, less);
      FrontSorts(e, sorted, less);
    }
  }

  lemma OccursTwice<T>(s: seq<T>, i: nat, j: nat)
    requires i < j < |s| && s[i] == s[j]
    ensures multiset(s)[s[i]] >= 2
  {
    assert s == s[..i] + [s[i]] + s[i + 1..j] + [s[j]] + s[j + 1..];
  }

  lemma HeadIsUnique<T>(s: seq<T>, x: T, less: Less<T>)
    requires s != [] && Comparable(s, less) && x in s[1..]
    ensures x != s[0]
  {
    var k :| 1 <= k < |s| && s[k] == x;
    if s[k] == s[0] {
      OccursTwice(s, 0, k);
    }
    assert s[0] in multiset(s);
  }

  lemma TailComparable<T>(s: seq<T>, less: Less<T>)
    requires s != [] && Comparable(s, less)
    ensures Comparable(s[1..], less)
    ensures forall x :: x in s[1..] ==> less(s[0], x) || less(x, s[0])
  {
    assert s == [s[0]] + s[1..];
    forall x | x in multiset(s[1..]) ensures multiset(s[1..])[x] == 1 {
      assert x in multiset(s);
    }
    forall x | x in s[1..] ensures less(s[0], x) || less(x, s[0]) {
      HeadIsUnique(s, x, less);
    }
  }

  lemma {:induction false} SortSorts<T(!new)>(s: seq<T>, less: Less<T>)
    requires StrictOrder(less) && Comparable(s, less)
    ensures Sorted(Sort(s, less), less)
    decreases |s|
  {
    if s == [] {
    } else {
      TailComparable(s, less);
      SortSorts(s[1..], less);
      SortKeeps(s[1..], less);
      SameElements(Sort(s[1..], less), s[1..]);
      InsertSorts(s[0], Sort(s[1..], less), less);
    }
  }

  // ---------------------------------------------------------------------
  // Determined by what is sorted
  // ---------------------------------------------------------------------

  lemma SameFirst<T(!new)>(a: seq<T>, b: seq<T>, less: Less<T>)
    requires StrictOrder(less) && Sorted(a, less) && Sorted(b, less) && multiset(a) == multiset(b) && a != []
    ensures b != [] && a[0] == b[0]
  {
    SameElements(a, b);
    assert a[0] in b && b[0] in a;
    FirstIsLeast(a, b[0], less);
    FirstIsLeast(b, a[0], less);
  }

  lemma TailsArrangeTheSame<T>(a: seq<T>, b: seq<T>)
    requires multiset(a) == multiset(b) && a != [] && b != [] && a[0] == b[0]
    ensures multiset(a[1..]) == multiset(b[1..])
  {
    HeadCounted(a);
    HeadCounted(b);
    assert multiset(a[1..]) == multiset(a) - multiset{a[0]};
    assert multiset(b[1..]) == multiset(b) - multiset{b[0]};
  }

  lemma SameHeadAndTail<T>(a: seq<T>, b: seq<T>)
    requires a != [] && b != [] && a[0] == b[0] && a[1..] == b[1..]
    ensures a == b
  {
    assert a == [a[0]] + a[1..] && b == [b[0]] + b[1..];
  }

  /** A sorted arrangement is determined by what it arranges. */
  lemma {:induction false} SortedUnique<T(!new)>(a: seq<T>, b: seq<T>, less: Less<T>)
    requires StrictOrder(less) && Sorted(a, less) && Sorted(b, less) && multiset(a) == multiset(b)
    ensures a == b
    decreases |a|
  {
    SameElements(a, b);
    if a == [] {
    } else {
      SameFirst(a, b, less);
      TailsArrangeTheSame(a, b);
      TailSorted(a, less);
      TailSorted(b, less);
      SortedUnique(a[1..], b[1..], less);
      SameHeadAndTail(a, b);
    }
  }

  lemma ComparablePermutes<T>(a: seq<T>, b: seq<T>, less: Less<T>)
    requires multiset(a) == multiset(b) && Comparable(a, less)
    ensures Comparable(b, less)
  {
    SameElements(a, b);
  }

  /** What is sorted is all that matters, not how it was arranged. */
  lemma SortDetermined<T(!new)>(a: seq<T>, b: seq<T>, less: Less<T>)
    requires StrictOrder(less) && Comparable(a, less) && multiset(a) == multiset(b)
    ensures Sort(a, less) == Sort(b, less)
  {
    ComparablePermutes(a, b, less);
    SortSorts(a, less);
    SortSorts(b, less);
    SortKeeps(a, less);
    SortKeeps(b, less);
    SortedUnique(Sort(a, less), Sort(b, less), less);
  }
}
