/** Allow lists on values (proxy/formatter.go): which entries survive compilation, and what the
    pruning walk keeps. */
module AllowFilter {
  import opened Options
  import opened JsonTree

  const KEEP: Json := Atom(Bool(true))

  // ---------------------------------------------------------------- the compiled dictionary

  /** The dictionary after one more entry: missing or scalar steps are replaced by dictionaries,
      and the last step by the keep mark, whatever was there. */
  function InsertAllow(t: Json, path: Path): (r: Json)
    requires t.Obj? && path != []
    ensures r.Obj?
    decreases |path|
  {
    if |path| == 1 then Obj(t.m[path[0] := KEEP])
    else
      var child := if path[0] in t.m && t.m[path[0]].Obj? then t.m[path[0]] else Obj(map[]);
      Obj(t.m[path[0] := InsertAllow(child, path[1..])])
  }

  /** Once the dictionaries on the way exist, inserting is one assignment in the last of them. */
  lemma {:induction false} InsertIsBind(t: Json, path: Path, last: string)
    requires HasObj(t, path)
    ensures t.Obj? && InsertAllow(t, path + [last]) == BindValue(t, path, last, KEEP)
    decreases |path|
  {
    var full := path + [last];
    if path != [] {
      KindAtStep(t, path);
      assert full[0] == path[0] && full[1..] == path[1..] + [last];
      InsertIsBind(t.m[path[0]], path[1..], last);
    } else {
      assert full == [last];
    }
  }

  /** Making the next missing dictionary on the way does not change what the insertion yields. */
  lemma {:induction false} StepMakesWay(t: Json, i: nat, path: Path, last: string)
    requires i < |path| && HasObj(t, path[..i]) && !HasObj(t, path[..i + 1])
    ensures t.Obj? && HasObj(BindValue(t, path[..i], path[i], Obj(map[])), path[..i + 1])
    ensures InsertAllow(BindValue(t, path[..i], path[i], Obj(map[])), path + [last]) == InsertAllow(t, path + [last])
    decreases i
  {
    var full := path + [last];
    var r := BindValue(t, path[..i], path[i], Obj(map[]));
    KindAtStep(t, path[..i + 1]);
    KindAtStep(r, path[..i + 1]);
    if i == 0 {
      assert path[..1][1..] == [];
      assert r.m[path[0]] == Obj(map[]);
      assert r.m[path[0] := InsertAllow(Obj(map[]), full[1..])] == t.m[path[0] := InsertAllow(Obj(map[]), full[1..])];
    } else {
      KindAtStep(t, path[..i]);
      assert path[..i][1..] == path[1..][..i - 1] && path[..i + 1][1..] == path[1..][..i];
      assert full[1..] == path[1..] + [last];
      StepMakesWay(t.m[path[0]], i - 1, path[1..], last);
      var sub := BindValue(t.m[path[0]], path[1..][..i - 1], path[i], Obj(map[]));
      assert r.m == t.m[path[0] := sub];
      assert r.m[path[0] := InsertAllow(sub, full[1..])] == t.m[path[0] := InsertAllow(sub, full[1..])];
    }
  }

  function InsertAllAllow(t: Json, ps: seq<Path>): (r: Json)
    requires t.Obj? && AllNonEmpty(ps)
    ensures r.Obj?
    decreases |ps|
  {
    if ps == [] then t else InsertAllAllow(InsertAllow(t, ps[0]), ps[1..])
  }

  function AllowTreeOf(ps: seq<Path>): (r: Json)
    requires AllNonEmpty(ps)
    ensures r.Obj?
  {
    InsertAllAllow(Obj(map[]), ps)
  }

  /** A mark sits at q. */
  predicate IsLeaf(t: Json, q: Path) {
    q != [] && KindAt(t, q).Leaf?
  }

  lemma {:induction false} InsertAllowLeaves(t: Json, p: Path, q: Path)
    requires t.Obj? && p != []
    ensures IsLeaf(InsertAllow(t, p), q) <==> q == p || (IsLeaf(t, q) && !Comparable(p, q))
    decreases |p|
  {
    if q != [] {
      PrefixStep(p, q);
      PrefixStep(q, p);
      if p[0] == q[0] {
        var child := if p[0] in t.m && t.m[p[0]].Obj? then t.m[p[0]] else Obj(map[]);
        if |p| == 1 {
          assert p <= q;
          KindAtStep(InsertAllow(t, p), q);
        } else if |q| == 1 {
          assert q <= p && q != p;
          KindAtStep(InsertAllow(t, p), q);
          assert q[1..] == [] && InsertAllow(t, p).m[q[0]] == InsertAllow(child, p[1..]);
          assert KindAt(InsertAllow(t, p), q) == Inner;
        } else {
          InsertAllowLeaves(child, p[1..], q[1..]);
          KindAtStep(t, q);
          KindAtStep(InsertAllow(t, p), q);
          if !(p[0] in t.m && t.m[p[0]].Obj?) {
            assert KindAt(t, q) == Absent;
          }
        }
      } else {
        KindAtStep(InsertAllow(t, p), q);
        KindAtStep(t, q);
      }
    }
  }

  predicate StrictlyComparable(p: Path, q: Path) {
    p != q && Comparable(p, q)
  }

  /** q is listed, and no entry after some listing of it is strictly comparable with it. */
  ghost predicate Effective(ps: seq<Path>, q: Path) {
    exists i :: 0 <= i < |ps| && ps[i] == q && forall j :: i < j < |ps| ==> !StrictlyComparable(ps[j], q)
  }

  ghost predicate NoneComparable(ps: seq<Path>, q: Path) {
    forall j :: 0 <= j < |ps| ==> !StrictlyComparable(ps[j], q)
  }

  lemma EffectiveStep(ps: seq<Path>, q: Path)
    requires ps != []
    ensures Effective(ps, q) <==> Effective(ps[1..], q) || (ps[0] == q && NoneComparable(ps[1..], q))
  {
    if Effective(ps, q) {
      var i :| 0 <= i < |ps| && ps[i] == q && forall j :: i < j < |ps| ==> !StrictlyComparable(ps[j], q);
      if i > 0 {
        assert ps[1..][i - 1] == q;
      } else {
        assert forall j :: 0 <= j < |ps[1..]| ==> ps[1..][j] == ps[j + 1];
      }
    }
    if Effective(ps[1..], q) {
      var i :| 0 <= i < |ps[1..]| && ps[1..][i] == q && forall j :: i < j < |ps[1..]| ==>
        !StrictlyComparable(ps[1..][j], q);
      assert ps[i + 1] == q;
      assert forall j :: i + 1 < j < |ps| ==> ps[j] == ps[1..][j - 1];
    }
    if ps[0] == q && NoneComparable(ps[1..], q) {
      assert forall j :: 0 < j < |ps| ==> ps[j] == ps[1..][j - 1];
    }
  }

  lemma NoneComparableStep(ps: seq<Path>, q: Path)
    requires ps != []
    ensures NoneComparable(ps, q) <==> !StrictlyComparable(ps[0], q) && NoneComparable(ps[1..], q)
  {
    assert forall j :: 0 < j < |ps| ==> ps[j] == ps[1..][j - 1];
  }

  lemma {:induction false} InsertAllAllowLeaves(t: Json, ps: seq<Path>, q: Path)
    requires t.Obj? && AllNonEmpty(ps)
    ensures IsLeaf(InsertAllAllow(t, ps), q) <==> Effective(ps, q) || (IsLeaf(t, q) && NoneComparable(ps, q))
    decreases |ps|
  {
    if ps != [] {
      EffectiveStep(ps, q);
      NoneComparableStep(ps, q);
      InsertAllowLeaves(t, ps[0], q);
      InsertAllAllowLeaves(InsertAllow(t, ps[0]), ps[1..], q);
    }
  }

  /** The marks of the compiled dictionary are exactly the listed paths that no later entry, strictly
      above or strictly below them, has displaced. */
  lemma {:induction false} AllowTreeLeaves(ps: seq<Path>, q: Path)
    requires AllNonEmpty(ps)
    ensures IsLeaf(AllowTreeOf(ps), q) <==> Effective(ps, q)
  {
    InsertAllAllowLeaves(Obj(map[]), ps, q);
    if q != [] {
      KindAtStep(Obj(map[]), q);
    }
  }

  // ---------------------------------------------------------------- the walk

  /** Whether the entry `k: v` of a dictionary survives. */
  predicate Survives(wl: Json, k: string, v: Json)
    requires wl.Obj?
    decreases v, 1
  {
    k in wl.m && (wl.m[k].Obj? ==> v.Obj? && Pruned(wl.m[k], v).m != map[])
  }

  /** What pruning leaves of a dictionary. */
  function Pruned(wl: Json, v: Json): (r: Json)
    requires wl.Obj? && v.Obj?
    ensures r.Obj?
    decreases v, 0
  {
    Obj(map k | k in v.m && Survives(wl, k, v.m[k]) ::
          if wl.m[k].Obj? then Pruned(wl.m[k], v.m[k]) else v.m[k])
  }

  lemma PrunedEntry(wl: Json, v: Json, k: string)
    requires wl.Obj? && v.Obj?
    ensures k in Pruned(wl, v).m <==> k in v.m && Survives(wl, k, v.m[k])
    ensures k in Pruned(wl, v).m ==>
      Pruned(wl, v).m[k] == if wl.m[k].Obj? then Pruned(wl.m[k], v.m[k]) else v.m[k]
  {
  }

  /** A mark of `wl` that exists in v, at, above or below q. */
  ghost predicate KeptBy(wl: Json, v: Json, q: Path, leaf: Path) {
    IsLeaf(wl, leaf) && Get(v, leaf).Some? && Comparable(leaf, q)
  }

  ghost predicate Kept(wl: Json, v: Json, q: Path) {
    exists leaf :: KeptBy(wl, v, q, leaf)
  }

  lemma KeptByStep(wl: Json, v: Json, q: Path, leaf: Path)
    requires wl.Obj? && v.Obj? && q != [] && leaf != []
    ensures KeptBy(wl, v, q, leaf) <==>
      && q[0] == leaf[0] && q[0] in wl.m && q[0] in v.m
      && if |leaf| == 1 then wl.m[q[0]].Atom?
         else wl.m[q[0]].Obj? && KeptBy(wl.m[q[0]], v.m[q[0]], q[1..], leaf[1..])
  {
    PrefixStep(leaf, q);
    PrefixStep(q, leaf);
    KindAtStep(wl, leaf);
    assert Get(v, leaf).Some? <==> leaf[0] in v.m && Get(v.m[leaf[0]], leaf[1..]).Some?;
    if |leaf| == 1 {
      assert leaf[1..] == [];
      assert leaf[0] in wl.m ==> KindAt(wl, leaf) == KindOf(wl.m[leaf[0]]);
    }
  }

  /** An object keeps something exactly if one of the marks exists in it. */
  lemma {:induction false} SomethingLeft(wl: Json, v: Json)
    requires wl.Obj? && v.Obj?
    ensures Pruned(wl, v).m != map[] <==> exists leaf :: KeptBy(wl, v, [], leaf)
    decreases v
  {
    if Pruned(wl, v).m != map[] {
      var k :| k in Pruned(wl, v).m;
      PrunedEntry(wl, v, k);
      if wl.m[k].Obj? {
        SomethingLeft(wl.m[k], v.m[k]);
        var leaf :| KeptBy(wl.m[k], v.m[k], [], leaf);
        assert ([k] + leaf)[1..] == leaf;
        KindAtStep(wl, [k] + leaf);
        assert KeptBy(wl, v, [], [k] + leaf);
      } else {
        KindAtStep(wl, [k]);
        assert [k][1..] == [] && Get(v, [k]) == Get(v.m[k], []);
        assert KeptBy(wl, v, [], [k]);
      }
    }
    if exists leaf :: KeptBy(wl, v, [], leaf) {
      var leaf :| KeptBy(wl, v, [], leaf);
      var k := leaf[0];
      KindAtStep(wl, leaf);
      if |leaf| > 1 {
        assert Get(v.m[k], leaf[1..]).Some? && leaf[1..] != [];
        SomethingLeft(wl.m[k], v.m[k]);
        assert KeptBy(wl.m[k], v.m[k], [], leaf[1..]);
      }
      assert |leaf| == 1 ==> leaf[1..] == [];
      PrunedEntry(wl, v, k);
    }
  }

  lemma {:induction false} KeptStep(wl: Json, v: Json, q: Path)
    requires wl.Obj? && v.Obj? && q != []
    ensures Kept(wl, v, q) <==>
      && q[0] in wl.m && q[0] in v.m
      && (wl.m[q[0]].Obj? ==> Kept(wl.m[q[0]], v.m[q[0]], q[1..]))
  {
    if Kept(wl, v, q) {
      var leaf :| KeptBy(wl, v, q, leaf);
      KeptByStep(wl, v, q, leaf);
    }
    if q[0] in wl.m && q[0] in v.m {
      if wl.m[q[0]].Obj? {
        if Kept(wl.m[q[0]], v.m[q[0]], q[1..]) {
          var leaf :| KeptBy(wl.m[q[0]], v.m[q[0]], q[1..], leaf);
          assert ([q[0]] + leaf)[1..] == leaf;
          KeptByStep(wl, v, q, [q[0]] + leaf);
        }
      } else {
        KeptByStep(wl, v, q, [q[0]]);
      }
    }
  }

  /** Pruning keeps a path of the input exactly if it lies at, below or on the way to a mark that
      exists in the input; what is kept is kept unchanged. */
  lemma {:induction false} PrunedKinds(wl: Json, v: Json, q: Path)
    requires wl.Obj? && v.Obj? && q != []
    ensures KindAt(Pruned(wl, v), q) == if Kept(wl, v, q) then KindAt(v, q) else Absent
    decreases |q|
  {
    KeptStep(wl, v, q);
    KindAtStep(Pruned(wl, v), q);
    KindAtStep(v, q);
    var k := q[0];
    if k in v.m && k in wl.m && wl.m[k].Obj? {
      if !v.m[k].Obj? {
        AtomKeepsNothing(wl.m[k], v.m[k], q[1..]);
      } else if |q| == 1 {
        SomethingLeft(wl.m[k], v.m[k]);
        assert Kept(wl.m[k], v.m[k], q[1..]) <==> exists leaf :: KeptBy(wl.m[k], v.m[k], [], leaf) by {
          assert q[1..] == [];
        }
      } else {
        PrunedKinds(wl.m[k], v.m[k], q[1..]);
        if !Survives(wl, k, v.m[k]) {
          NothingKept(wl.m[k], v.m[k], q[1..]);
        }
      }
    }
  }

  lemma AtomKeepsNothing(wl: Json, v: Json, q: Path)
    requires wl.Obj? && !v.Obj?
    ensures !Kept(wl, v, q)
  {
    forall leaf
      ensures !KeptBy(wl, v, q, leaf)
    {
    }
  }

  lemma NothingKept(wl: Json, v: Json, q: Path)
    requires wl.Obj? && v.Obj? && Pruned(wl, v).m == map[]
    ensures !Kept(wl, v, q)
  {
    SomethingLeft(wl, v);
    forall leaf
      ensures !KeptBy(wl, v, q, leaf)
    {
      assert !KeptBy(wl, v, [], leaf);
    }
  }

  /** An allow filter, end to end: a path stays exactly if an effective entry exists in the input at,
      above or below it. In particular an atom stays exactly if an effective entry is a prefix of
      its path. */
  lemma {:induction false} AllowFilterKinds(ps: seq<Path>, v: Json, q: Path)
    requires AllNonEmpty(ps) && v.Obj? && q != []
    ensures KindAt(Pruned(AllowTreeOf(ps), v), q) ==
      if exists p :: Effective(ps, p) && Get(v, p).Some? && Comparable(p, q) then KindAt(v, q) else Absent
    ensures KindAt(v, q).Leaf? ==>
      (KindAt(Pruned(AllowTreeOf(ps), v), q) == KindAt(v, q) <==> exists p :: Effective(ps, p) && p <= q)
  {
    var t := AllowTreeOf(ps);
    PrunedKinds(t, v, q);
    forall p
      ensures IsLeaf(t, p) <==> Effective(ps, p)
    {
      AllowTreeLeaves(ps, p);
    }
    if exists p :: Effective(ps, p) && Get(v, p).Some? && Comparable(p, q) {
      var p :| Effective(ps, p) && Get(v, p).Some? && Comparable(p, q);
      assert KeptBy(t, v, q, p);
    }
    if Kept(t, v, q) {
      var p :| KeptBy(t, v, q, p);
      assert Effective(ps, p) && Get(v, p).Some? && Comparable(p, q);
    }
    if KindAt(v, q).Leaf? {
      if Kept(t, v, q) {
        var p :| KeptBy(t, v, q, p);
        AtomIsTop(v, q, p);
        assert Effective(ps, p) && p <= q;
      }
      if exists p :: Effective(ps, p) && p <= q {
        var p :| Effective(ps, p) && p <= q;
        PrefixExists(v, p, q);
        assert KeptBy(t, v, q, p);
      }
    }
  }

  /** Nothing exists strictly below an atom. */
  lemma AtomIsTop(v: Json, q: Path, p: Path)
    requires KindAt(v, q).Leaf? && Get(v, p).Some? && Comparable(p, q)
    ensures p <= q
  {
    if q <= p {
      PrefixExists(v, q, p);
    }
  }

  /** The result is empty, so that the caller drops it, exactly if no effective entry exists. */
  lemma {:induction false} AllowFilterEmpty(ps: seq<Path>, v: Json)
    requires AllNonEmpty(ps) && v.Obj?
    ensures Pruned(AllowTreeOf(ps), v).m == map[] <==> !exists p :: Effective(ps, p) && Get(v, p).Some?
  {
    var t := AllowTreeOf(ps);
    SomethingLeft(t, v);
    forall p
      ensures KeptBy(t, v, [], p) <==> Effective(ps, p) && Get(v, p).Some?
    {
      AllowTreeLeaves(ps, p);
    }
  }

  /** Pruning a second time changes nothing. */
  lemma {:induction false} PruneIsIdempotent(wl: Json, v: Json)
    requires wl.Obj? && v.Obj?
    ensures Pruned(wl, Pruned(wl, v)) == Pruned(wl, v)
  {
    var r := Pruned(wl, v);
    forall q
      ensures KindAt(Pruned(wl, r), q) == KindAt(r, q)
    {
      if q != [] {
        PrunedKinds(wl, r, q);
        PrunedKinds(wl, v, q);
        if Kept(wl, v, q) {
          var leaf :| KeptBy(wl, v, q, leaf);
          PrunedKinds(wl, v, leaf);
          assert KeptBy(wl, v, leaf, leaf);
          assert KindAt(r, leaf) == KindAt(v, leaf) != Absent;
          assert KeptBy(wl, r, q, leaf);
        }
      }
    }
    Extensional(Pruned(wl, r), r);
  }
}
