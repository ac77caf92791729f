/** Sequences compared by their multisets: permutations, images and ranges. */
module Permutations {

  function Map<A, B>(f: A -> B, s: seq<A>): (r: seq<B>)
    ensures |r| == |s| && forall i :: 0 <= i < |s| ==> r[i] == f(s[i])
  {
    if s == [] then [] else [f(s[0])] + Map(f, s[1..])
  }

  lemma MapSnoc<A, B>(f: A -> B, s: seq<A>, i: nat)
    requires i < |s|
    ensures Map(f, s[..i + 1]) == Map(f, s[..i]) + [f(s[i])]
  {
    var longer, shorter := Map(f, s[..i + 1]), Map(f, s[..i]);
    assert forall k :: 0 <= k < i ==> longer[k] == f(s[k]) == shorter[k];
  }

  function Without<T>(s: seq<T>, i: nat): (r: seq<T>)
    requires i < |s|
    ensures |r| == |s| - 1
  {
    s[..i] + s[i + 1..]
  }

  lemma WithoutMultiset<T>(s: seq<T>, i: nat)
    requires i < |s|
    ensures multiset(s) == multiset(Without(s, i)) + multiset{s[i]}
  {
    assert s == s[..i] + ([s[i]] + s[i + 1..]);
  }

  lemma WithoutFirst<T>(s: seq<T>)
    requires s != []
    ensures Without(s, 0) == s[1..]
    ensures multiset(s) == multiset(s[1..]) + multiset{s[0]}
  {
    WithoutMultiset(s, 0);
  }

  /** A member can be taken out of both of two permuted sequences. */
  lemma TakeFirstOut<T>(s: seq<T>, t: seq<T>) returns (i: nat)
    requires s != [] && multiset(s) == multiset(t)
    ensures i < |t| && t[i] == s[0]
    ensures multiset(s[1..]) == multiset(Without(t, i))
  {
    assert s[0] in multiset(t);
    i :| 0 <= i < |t| && t[i] == s[0];
    WithoutMultiset(t, i);
    WithoutFirst(s);
    assert multiset(s[1..]) == multiset(s) - multiset{s[0]};
    assert multiset(Without(t, i)) == multiset(t) - multiset{t[i]};
  }

  /** Equal multisets have equal images. */
  lemma {:induction false} MapMultiset<A, B>(f: A -> B, s: seq<A>, t: seq<A>)
    requires multiset(s) == multiset(t)
    ensures multiset(Map(f, s)) == multiset(Map(f, t))
    decreases |s|
  {
    assert |multiset(s)| == |s| && |multiset(t)| == |t|;
    if s != [] {
      var i := TakeFirstOut(s, t);
      MapMultiset(f, s[1..], Without(t, i));
      assert Map(f, Without(t, i)) == Without(Map(f, t), i);
      WithoutMultiset(Map(f, t), i);
      WithoutFirst(Map(f, s));
      assert Map(f, s[1..]) == Map(f, s)[1..];
    }
  }

  function Range(n: nat): (r: seq<nat>)
    ensures |r| == n && forall i :: 0 <= i < n ==> r[i] == i
  {
    seq(n, i requires 0 <= i < n => i)
  }

  predicate Distinct<T(==)>(s: seq<T>) {
    forall i, j :: 0 <= i < j < |s| ==> s[i] != s[j]
  }

  predicate Below(s: seq<nat>, n: nat) {
    forall i :: 0 <= i < |s| ==> s[i] < n
  }

  /** What `rand.Perm(n)` returns, and nothing more is assumed of it. */
  predicate IsPermutation(s: seq<nat>, n: nat) {
    |s| == n && Below(s, n) && Distinct(s)
  }

  lemma {:induction false} DistinctCount<T>(s: seq<T>, x: T)
    requires Distinct(s)
    ensures multiset(s)[x] == if x in s then 1 else 0
    decreases |s|
  {
    if s != [] {
      DistinctCount(s[1..], x);
      assert s == [s[0]] + s[1..];
      assert x in s <==> x == s[0] || x in s[1..];
    }
  }

  function Elements<T>(s: seq<T>): set<T> {
    set x | x in s
  }

  /** One of the orders in which an iteration over `keys` may go. */
  ghost predicate Enumerates<T>(order: seq<T>, keys: set<T>) {
    Distinct(order) && Elements(order) == keys
  }

  lemma EnumerationEnd<T>(rest: seq<T>, keys: set<T>, k: T)
    requires Enumerates(rest, keys) && k !in keys
    ensures Enumerates(rest + [k], keys + {k})
  {
    assert forall i :: 0 <= i < |rest| ==> rest[i] in Elements(rest);
  }

  /** One more element of an iteration over `keys`, of which `remaining` is still to come. */
  lemma EnumerationStep<T>(order: seq<T>, keys: set<T>, remaining: set<T>, k: T)
    requires Enumerates(order, keys - remaining) && k in remaining && remaining <= keys
    ensures Enumerates(order + [k], keys - (remaining - {k}))
  {
    EnumerationEnd(order, keys - remaining, k);
    assert keys - (remaining - {k}) == keys - remaining + {k};
  }

  lemma {:induction false} DistinctCardinality<T>(s: seq<T>)
    requires Distinct(s)
    ensures |Elements(s)| == |s|
    decreases |s|
  {
    if s != [] {
      DistinctCardinality(s[1..]);
      assert Elements(s) == {s[0]} + Elements(s[1..]);
    }
  }

  lemma RangeElements(n: nat)
    ensures |Elements(Range(n))| == n
    ensures forall i: nat :: i in Elements(Range(n)) <==> i < n
  {
    DistinctCardinality(Range(n));
    forall i: nat | i < n
      ensures i in Elements(Range(n))
    {
      assert Range(n)[i] == i;
    }
  }

  lemma {:induction false} SubsetCardinality<T>(a: set<T>, b: set<T>)
    requires a <= b
    ensures |a| <= |b|
    ensures |a| == |b| ==> a == b
    decreases |a|
  {
    if a == {} {
      assert |b| == 0 ==> b == {};
    } else {
      var x :| x in a;
      SubsetCardinality(a - {x}, b - {x});
      assert a == (a - {x}) + {x} && b == (b - {x}) + {x};
    }
  }

  /** n distinct numbers below n are all the numbers below n. */
  lemma {:induction false} PermutationIsRange(s: seq<nat>, n: nat)
    requires IsPermutation(s, n)
    ensures multiset(s) == multiset(Range(n))
  {
    var r := Range(n);
    var S, R := Elements(s), Elements(r);
    DistinctCardinality(s);
    DistinctCardinality(r);
    assert S <= R by {
      forall x | x in S
        ensures x in R
      {
        assert r[x] == x;
      }
    }
    SubsetCardinality(S, R);
    assert S == R;
    forall x
      ensures multiset(s)[x] == multiset(r)[x]
    {
      DistinctCount(s, x);
      DistinctCount(r, x);
      assert x in s <==> x in S;
      assert x in r <==> x in R;
    }
  }

  /** Taking a sequence's elements in the order of a permutation only reorders it. */
  lemma {:induction false} PermutedMultiset<T>(s: seq<T>, perm: seq<nat>, t: seq<T>)
    requires IsPermutation(perm, |s|) && |t| == |s|
    requires forall i :: 0 <= i < |s| ==> t[i] == s[perm[i]]
    ensures multiset(t) == multiset(s)
  {
    if s == [] {
      assert t == s;
    } else {
      var f := (i: nat) => if i < |s| then s[i] else s[0];
      PermutationIsRange(perm, |s|);
      MapMultiset(f, perm, Range(|s|));
      assert Map(f, perm) == t;
      assert Map(f, Range(|s|)) == s;
    }
  }
}
