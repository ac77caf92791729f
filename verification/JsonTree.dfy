/** Response data as immutable values, addressed by paths. A path is a list of keys; what matters
    at a path is its kind: nothing, a scalar, or an inner dictionary. */
module JsonTree {
  import opened Options

  /** Anything that is not a dictionary; to the filters a list is just such an atom. */
  datatype Scalar = Nil | Bool(b: bool) | Text(s: string) | Number(n: int) | Items(items: seq<Json>)

  datatype Json = Atom(a: Scalar) | Obj(m: map<string, Json>)

  type Path = seq<string>

  ghost predicate AllNonEmpty(ps: seq<Path>) {
    forall i :: 0 <= i < |ps| ==> ps[i] != []
  }

  datatype Kind = Absent | Leaf(a: Scalar) | Inner

  function Get(j: Json, p: Path): Option<Json>
    decreases |p|
  {
    if p == [] then Some(j)
    else if j.Obj? && p[0] in j.m then Get(j.m[p[0]], p[1..])
    else None
  }

  function KindOf(j: Json): Kind {
    if j.Obj? then Inner else Leaf(j.a)
  }

  function KindAt(j: Json, p: Path): Kind {
    var v := Get(j, p);
    if v.None? then Absent else KindOf(v.value)
  }

  lemma KindAtStep(j: Json, p: Path)
    requires p != []
    ensures KindAt(j, p) == if j.Obj? && p[0] in j.m then KindAt(j.m[p[0]], p[1..]) else Absent
  {
  }

  /** Two values with the same kind at every path are equal. */
  lemma {:induction false} Extensional(j: Json, k: Json)
    requires forall p :: KindAt(j, p) == KindAt(k, p)
    ensures j == k
    decreases j
  {
    assert KindAt(j, []) == KindAt(k, []);
    if j.Obj? {
      assert k.Obj?;
      forall x
        ensures x in j.m <==> x in k.m
      {
        assert KindAt(j, [x]) == KindAt(k, [x]);
        KindAtStep(j, [x]);
        KindAtStep(k, [x]);
      }
      forall x | x in j.m
        ensures j.m[x] == k.m[x]
      {
        forall q
          ensures KindAt(j.m[x], q) == KindAt(k.m[x], q)
        {
          assert KindAt(j, [x] + q) == KindAt(k, [x] + q);
          assert ([x] + q)[1..] == q;
        }
        Extensional(j.m[x], k.m[x]);
      }
      assert j.m == k.m;
    }
  }

  predicate Comparable(p: Path, q: Path) {
    p <= q || q <= p
  }

  /** A longer path is a prefix of another one exactly if first keys and remainders agree. */
  lemma PrefixStep(p: Path, q: Path)
    requires p != [] && q != []
    ensures p <= q <==> p[0] == q[0] && p[1..] <= q[1..]
    ensures p == q <==> p[0] == q[0] && p[1..] == q[1..]
  {
    assert p == [p[0]] + p[1..] && q == [q[0]] + q[1..];
    if p <= q {
      assert p[1..] == q[1..][..|p| - 1];
    }
  }

  /** A path with a value has values at all its prefixes, and inner ones at the strict prefixes. */
  lemma {:induction false} PrefixExists(j: Json, p: Path, q: Path)
    requires p <= q && Get(j, q).Some?
    ensures Get(j, p).Some?
    ensures p != q ==> Get(j, p).value.Obj?
    decreases |p|
  {
    if p != [] {
      PrefixStep(p, q);
      PrefixExists(j.m[p[0]], p[1..], q[1..]);
    } else {
      assert p != q ==> q != [];
    }
  }

  /** There is a dictionary at the path. */
  predicate HasObj(j: Json, path: Path) {
    KindAt(j, path) == Inner
  }

  /** The value after `key` is bound to `sub` in the dictionary at `path`. */
  function BindValue(j: Json, path: Path, key: string, sub: Json): (r: Json)
    requires HasObj(j, path)
    ensures r.Obj?
    decreases |path|
  {
    if path == [] then Obj(j.m[key := sub])
    else Obj(j.m[path[0] := BindValue(j.m[path[0]], path[1..], key, sub)])
  }

  /** The split of a dotted name: never empty. */
  function Split(s: string, sep: char): (parts: seq<string>)
    ensures parts != []
  {
    if s == [] then [[]]
    else
      var rest := Split(s[1..], sep);
      if s[0] == sep then [[]] + rest else [[s[0]] + rest[0]] + rest[1..]
  }

  function Join(parts: seq<string>, sep: char): string
    requires parts != []
    decreases |parts|
  {
    if |parts| == 1 then parts[0] else parts[0] + [sep] + Join(parts[1..], sep)
  }

  /** Joining loses nothing if no part has the separator. */
  lemma {:induction false} JoinSplits(parts: seq<string>, sep: char)
    requires parts != [] && forall k :: 0 <= k < |parts| ==> sep !in parts[k]
    ensures Split(Join(parts, sep), sep) == parts
    decreases |parts|
  {
    if |parts| == 1 {
      SplitFront(parts[0], "", sep);
      assert parts[0] + "" == parts[0];
    } else {
      JoinSplits(parts[1..], sep);
      SplitAfter(parts[0], Join(parts[1..], sep), sep);
      assert [parts[0]] + parts[1..] == parts;
    }
  }

  lemma SplitAfter(front: string, rest: string, sep: char)
    requires sep !in front
    ensures Split(front + [sep] + rest, sep) == [front] + Split(rest, sep)
  {
    var s := [sep] + rest;
    assert s[1..] == rest && front + [sep] + rest == front + s;
    SplitFront(front, s, sep);
    assert front + [] == front;
  }

  lemma {:induction false} SplitFront(front: string, s: string, sep: char)
    requires sep !in front
    ensures Split(front + s, sep) == [front + Split(s, sep)[0]] + Split(s, sep)[1..]
    decreases |front|
  {
    if front == "" {
      assert front + s == s && front + Split(s, sep)[0] == Split(s, sep)[0];
      assert [Split(s, sep)[0]] + Split(s, sep)[1..] == Split(s, sep);
    } else {
      SplitFront(front[1..], s, sep);
      assert (front + s)[1..] == front[1..] + s && (front + s)[0] == front[0];
      var rest := Split(front[1..] + s, sep);
      assert rest[0] == front[1..] + Split(s, sep)[0] && rest[1..] == Split(s, sep)[1..];
      assert [front[0]] + rest[0] == front + Split(s, sep)[0];
    }
  }

  /** Splitting loses nothing and leaves no separator inside a part. */
  lemma {:induction false} SplitJoins(s: string, sep: char)
    ensures Join(Split(s, sep), sep) == s
    ensures forall k :: 0 <= k < |Split(s, sep)| ==> sep !in Split(s, sep)[k]
    decreases |s|
  {
    if s != [] {
      var parts, rest := Split(s, sep), Split(s[1..], sep);
      SplitJoins(s[1..], sep);
      if s[0] == sep {
        assert parts[0] == [] && parts[1..] == rest;
        assert Join(parts, sep) == [sep] + s[1..];
      } else {
        assert parts[0] == [s[0]] + rest[0] && parts[1..] == rest[1..];
        assert Join(parts, sep) == [s[0]] + s[1..];
      }
    }
  }
}
