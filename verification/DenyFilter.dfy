/** Deny lists on values (proxy/formatter.go): the tree that is compiled from the list, the walk
    that deletes with it, and the paths they delete. */
module DenyFilter {
  import opened JsonTree
  import opened Permutations

  // ---------------------------------------------------------------- one path at a time

  /** The reference meaning of one deny entry: the value at that path disappears. */
  function DeletePath(j: Json, p: Path): Json
    requires p != []
    decreases |p|
  {
    if !j.Obj? || p[0] !in j.m then j
    else if |p| == 1 then Obj(j.m - {p[0]})
    else Obj(j.m[p[0] := DeletePath(j.m[p[0]], p[1..])])
  }

  function DeleteAll(j: Json, ps: seq<Path>): Json
    requires AllNonEmpty(ps)
    decreases |ps|
  {
    if ps == [] then j else DeleteAll(DeletePath(j, ps[0]), ps[1..])
  }

  lemma {:induction false} DeletePathKinds(j: Json, p: Path, q: Path)
    requires p != []
    ensures KindAt(DeletePath(j, p), q) == if p <= q then Absent else KindAt(j, q)
    decreases |p|
  {
    if q != [] {
      PrefixStep(p, q);
      if j.Obj? && p[0] in j.m && |p| > 1 {
        DeletePathKinds(j.m[p[0]], p[1..], q[1..]);
      }
    }
  }

  /** Some listed path is a prefix of q. */
  ghost predicate Listed(ps: seq<Path>, q: Path) {
    exists i :: 0 <= i < |ps| && ps[i] <= q
  }

  lemma ListedStep(ps: seq<Path>, q: Path)
    requires ps != []
    ensures Listed(ps, q) <==> ps[0] <= q || Listed(ps[1..], q)
  {
    if Listed(ps, q) {
      var i :| 0 <= i < |ps| && ps[i] <= q;
      assert i > 0 ==> ps[1..][i - 1] <= q;
    }
    if Listed(ps[1..], q) {
      var i :| 0 <= i < |ps[1..]| && ps[1..][i] <= q;
      assert ps[i + 1] <= q;
    }
  }

  lemma {:induction false} DeleteAllKinds(j: Json, ps: seq<Path>, q: Path)
    requires AllNonEmpty(ps)
    ensures KindAt(DeleteAll(j, ps), q) == if Listed(ps, q) then Absent else KindAt(j, q)
    decreases |ps|
  {
    if ps != [] {
      ListedStep(ps, q);
      DeletePathKinds(j, ps[0], q);
      DeleteAllKinds(DeletePath(j, ps[0]), ps[1..], q);
    }
  }

  // ---------------------------------------------------------------- the compiled tree

  /** Inner nodes are dictionaries, and every leaf is the nil mark. */
  predicate IsDenyTree(t: Json) {
    t.Obj? && forall k :: k in t.m ==> t.m[k] == Atom(Nil) || IsDenyTree(t.m[k])
  }

  /** The tree after one more entry. */
  function InsertDeny(t: Json, path: Path): (r: Json)
    requires IsDenyTree(t)
    ensures IsDenyTree(r)
    decreases |path|
  {
    if path == [] then t
    else if |path| == 1 then Obj(t.m[path[0] := Atom(Nil)])
    else if path[0] !in t.m then Obj(t.m[path[0] := InsertDeny(Obj(map[]), path[1..])])
    else if t.m[path[0]] == Atom(Nil) then t
    else Obj(t.m[path[0] := InsertDeny(t.m[path[0]], path[1..])])
  }

  function InsertAllDeny(t: Json, ps: seq<Path>): (r: Json)
    requires IsDenyTree(t)
    ensures IsDenyTree(r)
    decreases |ps|
  {
    if ps == [] then t else InsertAllDeny(InsertDeny(t, ps[0]), ps[1..])
  }

  function DenyTreeOf(ps: seq<Path>): (r: Json)
    ensures IsDenyTree(r)
  {
    InsertAllDeny(Obj(map[]), ps)
  }

  /** A nil mark lies on the way along q. */
  predicate Covers(t: Json, q: Path)
    requires IsDenyTree(t)
    decreases |q|
  {
    q != [] && q[0] in t.m && (t.m[q[0]] == Atom(Nil) || Covers(t.m[q[0]], q[1..]))
  }

  lemma {:induction false} InsertDenyCovers(t: Json, p: Path, q: Path)
    requires IsDenyTree(t) && p != []
    ensures Covers(InsertDeny(t, p), q) <==> Covers(t, q) || p <= q
    decreases |p|
  {
    if q != [] {
      PrefixStep(p, q);
      if |p| > 1 && q[0] == p[0] {
        if p[0] !in t.m {
          InsertDenyCovers(Obj(map[]), p[1..], q[1..]);
        } else if t.m[p[0]] != Atom(Nil) {
          InsertDenyCovers(t.m[p[0]], p[1..], q[1..]);
        }
      }
    }
  }

  /** The compiled tree covers exactly the listed paths and everything below them. */
  lemma {:induction false} InsertAllDenyCovers(t: Json, ps: seq<Path>, q: Path)
    requires IsDenyTree(t) && AllNonEmpty(ps)
    ensures Covers(InsertAllDeny(t, ps), q) <==> Covers(t, q) || Listed(ps, q)
    decreases |ps|
  {
    if ps != [] {
      ListedStep(ps, q);
      InsertDenyCovers(t, ps[0], q);
      InsertAllDenyCovers(InsertDeny(t, ps[0]), ps[1..], q);
    }
  }

  // ---------------------------------------------------------------- the walk

  /** Deletes, below two dictionaries walked in step, whatever the tree marks. */
  function Denied(ref: Json, v: Json): Json
    requires IsDenyTree(ref)
    decreases v
  {
    if !v.Obj? then v
    else Obj(map k | k in v.m && !(k in ref.m && ref.m[k] == Atom(Nil)) ::
               if k in ref.m then Denied(ref.m[k], v.m[k]) else v.m[k])
  }

  lemma DeniedEntry(ref: Json, v: Json, k: string)
    requires IsDenyTree(ref) && v.Obj? && k in v.m
    ensures Denied(ref, v).Obj?
    ensures k in Denied(ref, v).m <==> !(k in ref.m && ref.m[k] == Atom(Nil))
    ensures k in Denied(ref, v).m ==>
      Denied(ref, v).m[k] == if k in ref.m then Denied(ref.m[k], v.m[k]) else v.m[k]
  {
  }

  lemma DeniedKeys(ref: Json, v: Json)
    requires IsDenyTree(ref) && v.Obj?
    ensures Denied(ref, v).Obj? && Denied(ref, v).m.Keys <= v.m.Keys
  {
  }

  lemma {:induction false} DeniedKinds(ref: Json, v: Json, q: Path)
    requires IsDenyTree(ref)
    ensures KindAt(Denied(ref, v), q) == if Covers(ref, q) then Absent else KindAt(v, q)
    decreases |q|
  {
    if q != [] && v.Obj? && q[0] in v.m && q[0] in ref.m && ref.m[q[0]] != Atom(Nil) {
      DeniedKinds(ref.m[q[0]], v.m[q[0]], q[1..]);
    }
    if q != [] && !v.Obj? {
      assert KindAt(v, q) == Absent;
    }
  }

  /** A deny filter deletes a path exactly if a listed path is a prefix of it, and changes nothing
      else, at any depth. */
  lemma {:induction false} DenyFilterKinds(ps: seq<Path>, j: Json, q: Path)
    requires AllNonEmpty(ps)
    ensures KindAt(Denied(DenyTreeOf(ps), j), q) == if Listed(ps, q) then Absent else KindAt(j, q)
  {
    InsertAllDenyCovers(Obj(map[]), ps, q);
    DeniedKinds(DenyTreeOf(ps), j, q);
  }

  /** Compiling a list and walking once equals deleting the listed paths one by one, whatever the
      order in which they are taken and however often each is listed. */
  lemma {:induction false} DenyFilterIsDeletion(ps: seq<Path>, qs: seq<Path>, j: Json)
    requires AllNonEmpty(ps) && Elements(ps) == Elements(qs)
    ensures AllNonEmpty(qs)
    ensures Denied(DenyTreeOf(ps), j) == DeleteAll(j, qs)
  {
    forall i | 0 <= i < |qs|
      ensures qs[i] != []
    {
      assert qs[i] in Elements(qs);
    }
    forall q
      ensures KindAt(Denied(DenyTreeOf(ps), j), q) == KindAt(DeleteAll(j, qs), q)
    {
      DenyFilterKinds(ps, j, q);
      DeleteAllKinds(j, qs, q);
      SameElementsListed(ps, qs, q);
      SameElementsListed(qs, ps, q);
    }
    Extensional(Denied(DenyTreeOf(ps), j), DeleteAll(j, qs));
  }

  lemma SameElementsListed(ps: seq<Path>, qs: seq<Path>, q: Path)
    requires Elements(ps) == Elements(qs)
    ensures Listed(ps, q) ==> Listed(qs, q)
  {
    if Listed(ps, q) {
      var i :| 0 <= i < |ps| && ps[i] <= q;
      assert ps[i] in Elements(qs);
    }
  }
}
