/** Go's `sort.Slice` and `sort.Strings`, as far as the gateway relies on them: an in-place sort
    by a strict order. Where the order is total the result is a function of the multiset. */
module Sorting {

  ghost predicate StrictTotalOrder<T(!new)>(less: (T, T) -> bool) {
    && (forall x, y :: less(x, y) ==> !less(y, x))
    && (forall x, y :: less(x, y) || less(y, x) || x == y)
    && (forall x, y, z :: less(x, y) && less(y, z) ==> less(x, z))
  }

  ghost predicate Sorted<T(!new)>(less: (T, T) -> bool, s: seq<T>) {
    forall i, j :: 0 <= i < j < |s| ==> !less(s[j], s[i])
  }

  ghost predicate Permuted<T>(s: seq<T>, t: seq<T>) {
    multiset(s) == multiset(t)
  }

  lemma SwapPermutes<T>(s: seq<T>, i: nat, j: nat)
    requires i < j < |s|
    ensures Permuted(s, s[i := s[j]][j := s[i]])
  {
  }

  /** Insertion sort, in place. */
  method Sort<T(!new)>(less: (T, T) -> bool, a: array<T>)
    requires StrictTotalOrder(less)
    modifies a
    ensures Sorted(less, a[..])
    ensures Permuted(a[..], old(a[..]))
  {
    for n := 0 to a.Length
      invariant Sorted(less, a[..n])
      invariant Permuted(a[..], old(a[..]))
    {
      SinkLast(less, a, n);
    }
    assert a[..a.Length] == a[..];
  }

  /** The first n + 1 elements are in order, but for the one at j and those before it. */
  ghost predicate SortedBut<T(!new)>(less: (T, T) -> bool, s: seq<T>, n: nat, j: nat)
    requires n < |s|
  {
    forall p, q :: 0 <= p < q <= n && q != j ==> !less(s[q], s[p])
  }

  function Swapped<T>(s: seq<T>, j: nat): seq<T>
    requires 0 < j < |s|
  {
    s[j - 1 := s[j]][j := s[j - 1]]
  }

  lemma SunkOne<T(!new)>(less: (T, T) -> bool, s: seq<T>, n: nat, j: nat)
    requires StrictTotalOrder(less) && 0 < j <= n < |s| && less(s[j], s[j - 1]) && SortedBut(less, s, n, j)
    ensures SortedBut(less, Swapped(s, j), n, j - 1)
  {
    var t := Swapped(s, j);
    forall p, q | 0 <= p < q <= n && q != j - 1
      ensures !less(t[q], t[p])
    {
      if q == j {
        assert p < j - 1 ==> !less(s[j - 1], s[p]);
      } else if p == j - 1 || p == j {
        assert !less(s[q], s[j]) && !less(s[q], s[j - 1]);
      } else {
        assert !less(s[q], s[p]);
      }
    }
  }

  /** Moves `a[n]` down to its place in the sorted prefix before it. */
  method SinkLast<T(!new)>(less: (T, T) -> bool, a: array<T>, n: nat)
    requires n < a.Length && StrictTotalOrder(less) && Sorted(less, a[..n])
    modifies a
    ensures Sorted(less, a[..n + 1])
    ensures Permuted(a[..], old(a[..]))
  {
    var j := n;
    while j > 0 && less(a[j], a[j - 1])
      invariant 0 <= j <= n
      invariant Permuted(a[..], old(a[..]))
      invariant SortedBut(less, a[..], n, j)
    {
      ghost var before := a[..];
      SwapPermutes(before, j - 1, j);
      a[j - 1], a[j] := a[j], a[j - 1];
      assert a[..] == Swapped(before, j);
      SunkOne(less, before, n, j);
      j := j - 1;
    }
  }

  /** The first element of a sorted sequence is not above any of its elements. */
  lemma SortedHead<T(!new)>(less: (T, T) -> bool, s: seq<T>, x: T)
    requires StrictTotalOrder(less) && Sorted(less, s) && x in s
    ensures !less(x, s[0])
  {
    var i :| 0 <= i < |s| && s[i] == x;
    assert i > 0 ==> !less(s[i], s[0]);
  }

  lemma PermutedMember<T>(s: seq<T>, t: seq<T>, x: T)
    requires Permuted(s, t) && x in s
    ensures x in t
  {
    assert x in multiset(s);
  }

  lemma PermutedTail<T>(s: seq<T>, t: seq<T>)
    requires s != [] && t != [] && s[0] == t[0] && Permuted(s, t)
    ensures Permuted(s[1..], t[1..])
  {
    assert s == [s[0]] + s[1..] && t == [t[0]] + t[1..];
    assert multiset(s[1..]) == multiset(s) - multiset{s[0]};
    assert multiset(t[1..]) == multiset(t) - multiset{t[0]};
  }

  /** Sorting by a total order leaves no choice: equal multisets sort to the same sequence. */
  lemma {:induction false} SortedUnique<T(!new)>(less: (T, T) -> bool, s: seq<T>, t: seq<T>)
    requires StrictTotalOrder(less) && Sorted(less, s) && Sorted(less, t)
    requires Permuted(s, t)
    ensures s == t
    decreases |s|
  {
    assert |multiset(s)| == |s| && |multiset(t)| == |t|;
    if s != [] {
      PermutedMember(s, t, s[0]);
      PermutedMember(t, s, t[0]);
      SortedHead(less, s, t[0]);
      SortedHead(less, t, s[0]);
      assert s[0] == t[0];
      PermutedTail(s, t);
      SortedUnique(less, s[1..], t[1..]);
      assert s == [s[0]] + s[1..] && t == [t[0]] + t[1..];
    }
  }

  // ------------------------------------------------ the sorted copy, as a function

  function Insert<T>(less: (T, T) -> bool, x: T, s: seq<T>): seq<T> {
    if s == [] then [x]
    else if less(s[0], x) then [s[0]] + Insert(less, x, s[1..])
    else [x] + s
  }

  function SortedCopy<T>(less: (T, T) -> bool, s: seq<T>): seq<T> {
    if s == [] then [] else Insert(less, s[0], SortedCopy(less, s[1..]))
  }

  lemma {:induction false} InsertPermutes<T>(less: (T, T) -> bool, x: T, s: seq<T>)
    ensures multiset(Insert(less, x, s)) == multiset(s) + multiset{x}
    decreases |s|
  {
    if s != [] {
      assert s == [s[0]] + s[1..];
      InsertPermutes(less, x, s[1..]);
    }
  }

  lemma {:induction false} InsertSorts<T(!new)>(less: (T, T) -> bool, x: T, s: seq<T>)
    requires StrictTotalOrder(less) && Sorted(less, s)
    ensures Sorted(less, Insert(less, x, s))
    decreases |s|
  {
    if s != [] && less(s[0], x) {
      InsertSorts(less, x, s[1..]);
      var r := Insert(less, x, s[1..]);
      InsertPermutes(less, x, s[1..]);
      forall i | 0 <= i < |r|
        ensures !less(r[i], s[0])
      {
        assert r[i] in multiset(r);
        assert r[i] == x || r[i] in s[1..];
      }
    }
  }

  lemma {:induction false} SortedCopyIsSorted<T(!new)>(less: (T, T) -> bool, s: seq<T>)
    requires StrictTotalOrder(less)
    ensures Sorted(less, SortedCopy(less, s))
    ensures Permuted(SortedCopy(less, s), s)
    decreases |s|
  {
    if s != [] {
      SortedCopyIsSorted(less, s[1..]);
      InsertSorts(less, s[0], SortedCopy(less, s[1..]));
      InsertPermutes(less, s[0], SortedCopy(less, s[1..]));
      assert s == [s[0]] + s[1..];
    }
  }

  /** The sorted copy is a function of the multiset alone. */
  lemma SortedCopyOfPermutation<T(!new)>(less: (T, T) -> bool, s: seq<T>, t: seq<T>)
    requires StrictTotalOrder(less) && Permuted(s, t)
    ensures SortedCopy(less, s) == SortedCopy(less, t)
  {
    SortedCopyIsSorted(less, s);
    SortedCopyIsSorted(less, t);
    SortedUnique(less, SortedCopy(less, s), SortedCopy(less, t));
  }

  lemma SortedIsSortedCopy<T(!new)>(less: (T, T) -> bool, s: seq<T>, t: seq<T>)
    requires StrictTotalOrder(less) && Sorted(less, s) && Permuted(s, t)
    ensures s == SortedCopy(less, t)
  {
    SortedCopyIsSorted(less, t);
    SortedUnique(less, s, SortedCopy(less, t));
  }

  // ------------------------------------------------ Go's string order

  /** Go compares strings byte by byte; a proper prefix is smaller. */
  predicate StringLess(s: string, t: string) {
    t != [] && (s == [] || s[0] < t[0] || (s[0] == t[0] && StringLess(s[1..], t[1..])))
  }

  lemma StringLessTrichotomy(s: string, t: string)
    ensures StringLess(s, t) ==> !StringLess(t, s)
    ensures StringLess(s, t) || StringLess(t, s) || s == t
    ensures s == t ==> !StringLess(s, t)
  {
    if s != [] && t != [] && s[0] == t[0] {
      StringLessTrichotomy(s[1..], t[1..]);
      assert s == [s[0]] + s[1..] && t == [t[0]] + t[1..];
    }
  }

  lemma StringLessTransitive(s: string, t: string, u: string)
    requires StringLess(s, t) && StringLess(t, u)
    ensures StringLess(s, u)
  {
    if s != [] && s[0] == t[0] == u[0] {
      StringLessTransitive(s[1..], t[1..], u[1..]);
    }
  }

  /** At position i the strings differ for the first time, and s has the lesser character there. */
  predicate LessAt(s: string, t: string, i: nat) {
    i < |s| && i < |t| && s[i] < t[i] && forall j :: 0 <= j < i ==> s[j] == t[j]
  }

  /** The order of strings: by the first position at which they differ, a proper start coming first. */
  lemma {:induction false} StringLessIff(s: string, t: string)
    ensures StringLess(s, t) <==> s < t || exists i: nat :: LessAt(s, t, i)
  {
    if StringLess(s, t) {
      var i := FirstDifference(s, t);
    } else {
      StringLessTrichotomy(s, t);
      if s != t {
        var i := FirstDifference(t, s);
      }
    }
  }

  lemma {:induction false} FirstDifference(s: string, t: string) returns (i: nat)
    requires StringLess(s, t)
    ensures i <= |s| && i < |t| && (forall j :: 0 <= j < i ==> s[j] == t[j]) && (i < |s| ==> s[i] < t[i])
    ensures s < t || LessAt(s, t, i)
    decreases |s|
  {
    i := 0;
    if s != [] && s[0] == t[0] {
      var k := FirstDifference(s[1..], t[1..]);
      i := k + 1;
      assert forall j :: 0 < j < i ==> s[j] == s[1..][j - 1] == t[1..][j - 1] == t[j];
    }
  }

  lemma StringLessIsTotalOrder()
    ensures StrictTotalOrder(StringLess)
  {
    forall s, t
      ensures StringLess(s, t) ==> !StringLess(t, s)
      ensures StringLess(s, t) || StringLess(t, s) || s == t
    {
      StringLessTrichotomy(s, t);
    }
    forall s, t, u | StringLess(s, t) && StringLess(t, u)
      ensures StringLess(s, u)
    {
      StringLessTransitive(s, t, u);
    }
  }
}
