/** The property filters of proxy/formatter.go as the source writes them: in place, on mutable
    dictionaries. Each method is proved against the value-level meaning of its filter. */
module FilterHeap {
  import opened JsonTree
  import opened DictHeap
  import Permutations
  import D = DenyFilter
  import A = AllowFilter

  function Paths(list: seq<string>): (ps: seq<Path>)
    ensures |ps| == |list| && AllNonEmpty(ps) && forall i :: 0 <= i < |list| ==> ps[i] == Split(list[i], '.')
  {
    Permutations.Map((s: string) => Split(s, '.'), list)
  }

  // ---------------------------------------------------------------- single changes

  /** Go's `delete(m, k)`. */
  method DropKey(m: Dict, k: string, ghost t: Shape) returns (ghost t': Shape)
    requires Rooted(m, t)
    modifies m
    ensures t' == Node(m, t.kids - {k}, t.objs) && Rooted(m, t')
  {
    m.m := m.m - {k};
    t' := Node(m, t.kids - {k}, t.objs);
  }

  /** After a change within one kid, which has kept its object, the parent is still a tree.
      `h` holds the contents before the change, `extra` the objects the kid may have gained. */
  lemma KidChanged(h: Contents, t: Shape, k: string, kid: Shape, extra: set<Dict>)
    requires t.Node? && HoldsIn(h, t) && Proper(t) && k in t.kids
    requires forall d :: d in Objs(t) && d !in Objs(t.kids[k]) ==> d in h && h[d] == d.m
    requires Matches(h[t.ref][k], kid) && Holds(kid) && Proper(kid)
    requires Objs(kid) <= Objs(t.kids[k]) + extra && Objs(t) !! extra
    ensures Rooted(t.ref, Rebind(t, k, kid)) && Objs(Rebind(t, k, kid)) <= Objs(t) + extra
  {
    RebindProper(t, k, kid, extra);
    OtherKidsStay(h, t, k);
    assert t.ref !in Objs(t.kids[k]);
  }

  lemma OtherKidsStay(h: Contents, t: Shape, k: string)
    requires t.Node? && HoldsIn(h, t) && Proper(t) && k in t.kids
    requires forall d :: d in Objs(t) && d !in Objs(t.kids[k]) ==> d in h && h[d] == d.m
    ensures forall x :: x in t.kids && x != k ==> Holds(t.kids[x])
  {
    forall x | x in t.kids && x != k
      ensures Holds(t.kids[x])
    {
      assert Objs(t.kids[x]) !! Objs(t.kids[k]);
      HoldsSnapshot(h, t.kids[x]);
    }
  }

  lemma RootedKid(h: Contents, t: Shape, k: string)
    requires t.Node? && HoldsIn(h, t) && Proper(t) && k in t.kids
    requires Current(h, Objs(t))
    ensures Matches(h[t.ref][k], t.kids[k]) && Holds(t.kids[k]) && Proper(t.kids[k])
    ensures Objs(t.kids[k]) <= Objs(t) && t.ref !in Objs(t.kids[k])
  {
    HoldsSnapshot(h, t.kids[k]);
  }

  /** The assignment `p[key] = v` somewhere in a tree. */
  method Put(p: Dict, key: string, v: Val, ghost t: Shape, ghost path: Path, ghost sub: Shape) returns (ghost t': Shape)
    requires t.Node? && Rooted(t.ref, t) && HasNode(t, path) && NodeAt(t, path).ref == p
    requires Matches(v, sub) && Holds(sub) && Proper(sub) && Objs(t) !! Objs(sub)
    modifies p
    ensures t' == Bind(t, path, key, sub) && Rooted(t.ref, t')
    ensures Objs(t') <= Objs(t) + Objs(sub)
  {
    ghost var h := Snapshot(Objs(t) + Objs(sub));
    HoldsSnapshot(h, t);
    HoldsSnapshot(h, sub);
    NodeAtFacts(t, path);
    p.m := p.m[key := v];
    ghost var h' := h[p := h[p][key := v]];
    assert Current(h', Objs(t) + Objs(sub));
    BindHolds(h, t, path, p, key, v, sub);
    BindProper(t, path, key, sub);
    t' := Bind(t, path, key, sub);
    HoldsSnapshot(h', t');
  }

  // ---------------------------------------------------------------- deny

  /** What the walk over a dictionary leaves at one key. */
  ghost predicate DenyDone(ref: Json, before: Shape, after: Shape, k: string)
    requires D.IsDenyTree(ref) && before.Node? && after.Node? && k in before.kids
  {
    if k !in ref.m then k in after.kids && after.kids[k] == before.kids[k]
    else if ref.m[k] == Atom(Nil) then k !in after.kids
    else k in after.kids && ValueOf(after.kids[k]) == D.Denied(ref.m[k], ValueOf(before.kids[k]))
  }

  /** The state of the walk: the keys still to come are untouched, the others are done. */
  ghost predicate DenyState(ref: Json, before: Shape, after: Shape, remaining: set<string>)
    requires D.IsDenyTree(ref)
  {
    && before.Node? && after.Node? && after.kids.Keys <= before.kids.Keys
    && forall k :: k in before.kids ==>
         if k in remaining then k in after.kids && after.kids[k] == before.kids[k]
         else DenyDone(ref, before, after, k)
  }

  lemma DenyFinished(ref: Json, before: Shape, after: Shape)
    requires D.IsDenyTree(ref) && DenyState(ref, before, after, {})
    ensures ValueOf(after) == D.Denied(ref, ValueOf(before))
  {
    var r, v := D.Denied(ref, ValueOf(before)), ValueOf(after);
    forall k | k in before.kids
      ensures k in v.m <==> k in r.m
      ensures k in r.m ==> v.m[k] == r.m[k]
    {
      assert DenyDone(ref, before, after, k);
      D.DeniedEntry(ref, ValueOf(before), k);
    }
    D.DeniedKeys(ref, ValueOf(before));
    assert v.m == r.m;
  }

  /** One more key is done: it is bound to what `after'` says, and nothing else has moved. */
  lemma DenyStep(ref: Json, before: Shape, after: Shape, after': Shape, remaining: set<string>, k: string)
    requires D.IsDenyTree(ref) && DenyState(ref, before, after, remaining) && k in remaining && after'.Node?
    requires after'.kids.Keys <= after.kids.Keys
    requires forall x :: x in after.kids && x != k ==> x in after'.kids && after'.kids[x] == after.kids[x]
    requires k in before.kids ==> DenyDone(ref, after, after', k)
    ensures DenyState(ref, before, after', remaining - {k})
  {
    forall x | x in before.kids && x != k && x !in remaining
      ensures DenyDone(ref, before, after', x)
    {
      assert DenyDone(ref, before, after, x);
    }
  }

  lemma DenyKid(rt: Shape, k: string)
    requires rt.Node? && Rooted(rt.ref, rt) && D.IsDenyTree(ValueOf(rt)) && k in rt.kids
    ensures k in ValueOf(rt).m && ValueOf(rt).m[k] == ValueOf(rt.kids[k]) && Objs(rt.kids[k]) <= Objs(rt)
    ensures rt.ref.m[k] == Plain(Nil) <==> ValueOf(rt).m[k] == Atom(Nil)
    ensures rt.ref.m[k] != Plain(Nil) ==>
      rt.ref.m[k].Ref? && Rooted(rt.ref.m[k].d, rt.kids[k]) && D.IsDenyTree(ValueOf(rt.kids[k]))
  {
    assert ValueOf(rt).m[k] == ValueOf(rt.kids[k]);
  }

  method RecDelete(ref: Dict, v: Val, ghost rt: Shape, ghost vt: Shape) returns (ghost vt': Shape)
    requires Rooted(ref, rt) && D.IsDenyTree(ValueOf(rt))
    requires Matches(v, vt) && Holds(vt) && Proper(vt) && Objs(rt) !! Objs(vt)
    modifies Objs(vt)
    ensures Rooted(ref, rt)
    ensures Matches(v, vt') && Holds(vt') && Proper(vt') && Objs(vt') <= Objs(vt)
    ensures ValueOf(vt') == D.Denied(ValueOf(rt), ValueOf(vt))
    decreases vt, 0
  {
    vt' := vt;
    if v.Plain? {
      return;
    }
    var m := v.d;
    ghost var tree := ValueOf(rt);
    var remaining := ref.m.Keys;
    while remaining != {}
      invariant remaining <= rt.kids.Keys
      invariant Rooted(ref, rt)
      invariant Rooted(m, vt') && Objs(vt') <= Objs(vt)
      invariant DenyState(tree, vt, vt', remaining)
      decreases remaining
    {
      var rk :| rk in remaining;
      ghost var before := vt';
      if rk in m.m {
        vt' := RecDeleteKey(ref.m[rk], m, rk, rt, before);
      }
      DenyStep(tree, vt, before, vt', remaining, rk);
      remaining := remaining - {rk};
    }
    DenyFinished(tree, vt, vt');
  }

  /** Below an entry of the deny tree that goes on. */
  method RecDeleteKid(
    rv: Val, m: Dict, rk: string, ghost rt: Shape, ghost t: Shape)
    returns (ghost t': Shape)
    requires rt.Node? && rk in rt.kids && rv.Ref? && Rooted(rv.d, rt.kids[rk]) && D.IsDenyTree(ValueOf(rt.kids[rk]))
    requires Rooted(m, t) && rk in t.kids && Objs(rt.kids[rk]) !! Objs(t.kids[rk])
    modifies Objs(t.kids[rk])
    ensures Rooted(m, t') && Objs(t') <= Objs(t) && t'.kids.Keys == t.kids.Keys
    ensures forall x :: x in t.kids && x != rk ==> t'.kids[x] == t.kids[x]
    ensures ValueOf(t'.kids[rk]) == D.Denied(ValueOf(rt.kids[rk]), ValueOf(t.kids[rk]))
    decreases t.kids[rk], 1
  {
    ghost var h := Snapshot(Objs(t));
    HoldsSnapshot(h, t);
    RootedKid(h, t, rk);
    ghost var kid := RecDelete(rv.d, m.m[rk], rt.kids[rk], t.kids[rk]);
    KidChanged(h, t, rk, kid, {});
    t' := Rebind(t, rk, kid);
  }

  /** One turn of the loop, for a key that both dictionaries have. */
  method RecDeleteKey(
    rv: Val, m: Dict, rk: string, ghost rt: Shape, ghost t: Shape)
    returns (ghost t': Shape)
    requires rt.Node? && Rooted(rt.ref, rt) && D.IsDenyTree(ValueOf(rt))
    requires rk in rt.kids && rt.ref.m[rk] == rv
    requires Rooted(m, t) && rk in t.kids && Objs(rt) !! Objs(t)
    modifies m, Objs(t.kids[rk])
    ensures Rooted(rt.ref, rt) && Rooted(m, t') && Objs(t') <= Objs(t) && t'.kids.Keys <= t.kids.Keys
    ensures forall x :: x in t.kids && x != rk ==> x in t'.kids && t'.kids[x] == t.kids[x]
    ensures DenyDone(ValueOf(rt), t, t', rk)
    decreases t.kids[rk], 2
  {
    DenyKid(rt, rk);
    assert Objs(rt) !! Objs(t.kids[rk]) && m !in Objs(rt);
    if rv == Plain(Nil) {
      t' := DropKey(m, rk, t);
    } else {
      t' := RecDeleteKid(rv, m, rk, rt, t);
    }
  }

  method BuildDenyTree(path: seq<string>, tree: Dict, ghost t: Shape) returns (ghost t': Shape)
    requires Rooted(tree, t) && D.IsDenyTree(ValueOf(t))
    modifies Objs(t)
    ensures Rooted(tree, t') && fresh(Objs(t') - Objs(t))
    ensures ValueOf(t') == D.InsertDeny(ValueOf(t), path)
    decreases |path|, 0
  {
    t' := t;
    if |path| == 0 {
      return;
    }
    var n := path[0];
    LookupAgrees(t, n);
    if |path| == 1 {
      // this is the node to be deleted, with everything below it
      RebindValue(t, n, Tip(Nil));
      t' := Put(tree, n, Plain(Nil), t, [], Tip(Nil));
    } else if n in tree.m {
      var k := tree.m[n];
      if k.Ref? {
        t' := BuildDenyBelow(path[1..], k.d, n, t);
      } else if k != Plain(Nil) {
        // the branch the source calls impossible
        assert false;
      }
    } else {
      t' := BuildDenyNew(path[1..], tree, n, t);
    }
  }

  lemma UpdateTwice<K, V>(m: map<K, V>, k: K, a: V, b: V)
    ensures m[k := a][k := b] == m[k := b]
  {
  }

  /** The last branch: a new child dictionary, and the recursive call into it. */
  method BuildDenyNew(rest: seq<string>, tree: Dict, n: string, ghost t: Shape) returns (ghost t': Shape)
    requires Rooted(tree, t) && n !in t.kids
    modifies Objs(t)
    ensures Rooted(tree, t') && fresh(Objs(t') - Objs(t))
    ensures ValueOf(t').Obj? && ValueOf(t') == Obj(ValueOf(t).m[n := D.InsertDeny(Obj(map[]), rest)])
    decreases |rest|, 2
  {
    var childTree := new Dict();
    EmptyNode(childTree);
    ghost var child := Node(childTree, map[], {childTree});
    RebindValue(t, n, child);
    ghost var t1 := Put(tree, n, Ref(childTree), t, [], child);
    assert t1.kids[n] == child && ValueOf(t1) == Obj(ValueOf(t).m[n := Obj(map[])]);
    assert Objs(t1) <= Objs(t) + {childTree};
    t' := BuildDenyBelow(rest, childTree, n, t1);
    UpdateTwice(ValueOf(t).m, n, Obj(map[]), D.InsertDeny(Obj(map[]), rest));
  }

  /** The recursive call into the dictionary bound to `n`. */
  method BuildDenyBelow(rest: seq<string>, child: Dict, n: string, ghost t: Shape) returns (ghost t': Shape)
    requires t.Node? && Rooted(t.ref, t) && n in t.kids && Matches(Ref(child), t.kids[n])
    requires D.IsDenyTree(ValueOf(t.kids[n]))
    modifies Objs(t.kids[n])
    ensures Rooted(t.ref, t') && fresh(Objs(t') - Objs(t))
    ensures ValueOf(t').Obj? && ValueOf(t') == Obj(ValueOf(t).m[n := D.InsertDeny(ValueOf(t.kids[n]), rest)])
    decreases |rest|, 1
  {
    ghost var h := Snapshot(Objs(t));
    HoldsSnapshot(h, t);
    RootedKid(h, t, n);
    ghost var kid := BuildDenyTree(rest, child, t.kids[n]);
    KidChanged(h, t, n, kid, Objs(kid) - Objs(t.kids[n]));
    RebindValue(t, n, kid);
    t' := Rebind(t, n, kid);
  }

  method NewDenylistingFilter(list: seq<string>) returns (bl: Dict, ghost t: Shape)
    ensures Rooted(bl, t) && fresh(Objs(t))
    ensures ValueOf(t) == D.DenyTreeOf(Paths(list))
  {
    bl := new Dict();
    EmptyNode(bl);
    t := Node(bl, map[], {bl});
    ghost var ps, target := Paths(list), D.DenyTreeOf(Paths(list));
    for i := 0 to |list|
      invariant Rooted(bl, t) && fresh(Objs(t))
      invariant D.IsDenyTree(ValueOf(t)) && D.InsertAllDeny(ValueOf(t), ps[i..]) == target
    {
      assert ps[i..][0] == Split(list[i], '.') && ps[i..][1..] == ps[i + 1..];
      var keys := Split(list[i], '.');
      t := BuildDenyTree(keys, bl, t);
    }
  }

  // ---------------------------------------------------------------- allow

  /** What pruning leaves at one key. */
  ghost predicate AllowDone(wl: Json, before: Shape, after: Shape, k: string)
    requires wl.Obj? && before.Node? && after.Node? && k in before.kids
  {
    var v := ValueOf(before.kids[k]);
    if A.Survives(wl, k, v) then
      k in after.kids && ValueOf(after.kids[k]) == (if wl.m[k].Obj? then A.Pruned(wl.m[k], v) else v)
    else k !in after.kids
  }

  /** The state of the loop: the keys still to come are untouched, the others are done. */
  ghost predicate AllowState(wl: Json, before: Shape, after: Shape, remaining: set<string>)
    requires wl.Obj?
  {
    && before.Node? && after.Node? && after.kids.Keys <= before.kids.Keys
    && forall k :: k in before.kids ==>
         if k in remaining then k in after.kids && after.kids[k] == before.kids[k]
         else AllowDone(wl, before, after, k)
  }

  lemma AllowStep(wl: Json, before: Shape, after: Shape, after': Shape, remaining: set<string>, k: string)
    requires wl.Obj? && AllowState(wl, before, after, remaining) && k in remaining && after'.Node?
    requires k in before.kids && after'.kids.Keys <= after.kids.Keys
    requires forall x :: x in after.kids && x != k ==> x in after'.kids && after'.kids[x] == after.kids[x]
    requires AllowDone(wl, after, after', k)
    ensures AllowState(wl, before, after', remaining - {k})
  {
    forall x | x in before.kids && x != k && x !in remaining
      ensures AllowDone(wl, before, after', x)
    {
      assert AllowDone(wl, before, after, x);
    }
  }

  lemma AllowFinished(wl: Json, before: Shape, after: Shape)
    requires wl.Obj? && AllowState(wl, before, after, {})
    ensures ValueOf(before).Obj? && ValueOf(after) == A.Pruned(wl, ValueOf(before))
  {
    var r, v := A.Pruned(wl, ValueOf(before)), ValueOf(after);
    forall k | k in before.kids
      ensures k in v.m <==> k in r.m
      ensures k in r.m ==> v.m[k] == r.m[k]
    {
      assert AllowDone(wl, before, after, k);
      A.PrunedEntry(wl, ValueOf(before), k);
    }
    assert r.m.Keys <= ValueOf(before).m.Keys;
    assert v.m == r.m;
  }

  method AllowlistPrune(wlDict: Dict, inDict: Dict, ghost wt: Shape, ghost t: Shape)
    returns (canDelete: bool, ghost t': Shape)
    requires Rooted(wlDict, wt) && Rooted(inDict, t) && Objs(wt) !! Objs(t)
    modifies Objs(t)
    ensures Rooted(wlDict, wt) && Rooted(inDict, t') && Objs(t') <= Objs(t)
    ensures ValueOf(wt).Obj? && ValueOf(t).Obj? && ValueOf(t') == A.Pruned(ValueOf(wt), ValueOf(t))
    ensures canDelete <==> inDict.m == map[]
    decreases t, 0
  {
    canDelete := true;
    t' := t;
    ghost var wl := ValueOf(wt);
    var remaining := inDict.m.Keys;
    while remaining != {}
      invariant remaining <= t.kids.Keys
      invariant Rooted(wlDict, wt)
      invariant Rooted(inDict, t') && Objs(t') <= Objs(t)
      invariant AllowState(wl, t, t', remaining)
      invariant canDelete <==> t'.kids.Keys <= remaining
      decreases remaining
    {
      var k :| k in remaining;
      ghost var before := t';
      var kept;
      kept, t' := PruneKey(wlDict, inDict, k, wt, before);
      if kept {
        canDelete := false;
      }
      AllowStep(wl, t, before, t', remaining, k);
      remaining := remaining - {k};
    }
    AllowFinished(wl, t, t');
    EmptyAgrees(t');
  }

  /** One turn of the loop: the entry for `k` is kept, with its dictionary pruned, or deleted. */
  method PruneKey(wlDict: Dict, inDict: Dict, k: string, ghost wt: Shape, ghost t: Shape)
    returns (kept: bool, ghost t': Shape)
    requires Rooted(wlDict, wt) && Rooted(inDict, t) && Objs(wt) !! Objs(t) && k in t.kids
    modifies inDict, Objs(t.kids[k])
    ensures Rooted(wlDict, wt) && Rooted(inDict, t') && Objs(t') <= Objs(t)
    ensures t'.kids.Keys <= t.kids.Keys && (k in t'.kids <==> kept)
    ensures forall x :: x in t.kids && x != k ==> x in t'.kids && t'.kids[x] == t.kids[x]
    ensures ValueOf(wt).Obj? && AllowDone(ValueOf(wt), t, t', k)
    decreases t.kids[k], 2
  {
    var v := inDict.m[k];
    var deleteSibling := true;
    t' := t;
    LookupAgrees(wt, k);
    LookupAgrees(t, k);
    assert Objs(wt) !! Objs(t.kids[k]) && inDict !in Objs(wt);
    if k in wlDict.m {
      var subWl := wlDict.m[k];
      if subWl.Ref? {
        if v.Ref? {
          var empty;
          empty, t' := PruneBelow(subWl.d, v.d, k, wt.kids[k], t);
          assert Rooted(wlDict, wt);
          if !empty {
            deleteSibling := false;
          }
        }
      } else {
        // allowlist leaf: this branch stays as it is
        deleteSibling := false;
      }
    }
    if deleteSibling {
      t' := DropKey(inDict, k, t');
    }
    kept := !deleteSibling;
  }

  /** The recursive call into the dictionary bound to `k`. */
  method PruneBelow(subWl: Dict, sub: Dict, k: string, ghost wt: Shape, ghost t: Shape)
    returns (empty: bool, ghost t': Shape)
    requires t.Node? && Rooted(t.ref, t) && k in t.kids && Matches(Ref(sub), t.kids[k])
    requires Rooted(subWl, wt) && Objs(wt) !! Objs(t)
    modifies Objs(t.kids[k])
    ensures Rooted(subWl, wt) && Rooted(t.ref, t') && Objs(t') <= Objs(t)
    ensures k in t'.kids && t'.kids == t.kids[k := t'.kids[k]]
    ensures ValueOf(wt).Obj? && ValueOf(t.kids[k]).Obj? && ValueOf(t'.kids[k]).Obj?
    ensures ValueOf(t'.kids[k]) == A.Pruned(ValueOf(wt), ValueOf(t.kids[k]))
    ensures empty <==> ValueOf(t'.kids[k]).m == map[]
    decreases t.kids[k], 1
  {
    ghost var h := Snapshot(Objs(t));
    HoldsSnapshot(h, t);
    RootedKid(h, t, k);
    ghost var kid;
    empty, kid := AllowlistPrune(subWl, sub, wt, t.kids[k]);
    EmptyAgrees(kid);
    KidChanged(h, t, k, kid, {});
    t' := Rebind(t, k, kid);
  }

  lemma EmptyAgrees(t: Shape)
    requires t.Node? && Holds(t)
    ensures ValueOf(t).Obj? && (t.ref.m == map[] <==> ValueOf(t).m == map[])
    ensures t.ref.m == map[] <==> t.kids == map[]
  {
    assert t.ref.m == map[] <==> t.ref.m.Keys == {};
    assert ValueOf(t).m == map[] <==> ValueOf(t).m.Keys == {};
    assert t.kids == map[] <==> t.kids.Keys == {};
  }

  lemma PrefixGrows<T>(s: seq<T>, i: nat)
    requires i < |s|
    ensures s[..i + 1] == s[..i] + [s[i]]
    ensures i + 1 == |s| ==> s[..i + 1] == s
  {
  }

  lemma NodeAtChild(t: Shape, path: Path, k: string)
    requires HasNode(t, path)
    ensures HasNode(t, path + [k]) <==> k in NodeAt(t, path).kids && NodeAt(t, path).kids[k].Node?
    ensures HasNode(t, path + [k]) ==> NodeAt(t, path + [k]) == NodeAt(t, path).kids[k]
    decreases |path|
  {
    if path == [] {
      assert [k][1..] == [] && path + [k] == [k];
    } else {
      assert (path + [k])[1..] == path[1..] + [k];
      NodeAtChild(t.kids[path[0]], path[1..], k);
    }
  }

  lemma NodeAfterBind(t: Shape, path: Path, k: string, sub: Shape)
    requires HasNode(t, path) && sub.Node?
    ensures HasNode(Bind(t, path, k, sub), path + [k])
    ensures NodeAt(Bind(t, path, k, sub), path + [k]) == sub
    decreases |path|
  {
    if path == [] {
      assert [k][1..] == [] && path + [k] == [k];
    } else {
      assert (path + [k])[1..] == path[1..] + [k];
      NodeAfterBind(t.kids[path[0]], path[1..], k, sub);
    }
  }

  /** The dictionary at the path `fields`, made on the way where there is none yet. Whatever
      the last step, inserting into the result yields what inserting into the original would have. */
  method BuildDictPath(accumulator: Dict, fields: seq<string>, ghost last: string, ghost t: Shape)
    returns (p: Dict, ghost t': Shape)
    requires Rooted(accumulator, t)
    modifies Objs(t)
    ensures Rooted(accumulator, t') && fresh(Objs(t') - Objs(t))
    ensures HasNode(t', fields) && NodeAt(t', fields).ref == p
    ensures ValueOf(t).Obj? && ValueOf(t').Obj?
    ensures A.InsertAllow(ValueOf(t'), fields + [last]) == A.InsertAllow(ValueOf(t), fields + [last])
  {
    var fIdx;
    p, fIdx := WalkDictPath(accumulator, fields, t);
    t' := t;
    while fIdx < |fields|
      invariant 0 <= fIdx <= |fields|
      invariant Rooted(accumulator, t') && fresh(Objs(t') - Objs(t)) && ValueOf(t').Obj?
      invariant HasNode(t', fields[..fIdx]) && NodeAt(t', fields[..fIdx]).ref == p
      invariant fIdx < |fields| ==> !HasNode(t', fields[..fIdx + 1])
      invariant A.InsertAllow(ValueOf(t'), fields + [last]) == A.InsertAllow(ValueOf(t), fields + [last])
    {
      NodeAtFacts(t', fields[..fIdx]);
      p, t' := MakeStep(p, fields, fIdx, last, t');
      fIdx := fIdx + 1;
    }
    WholePrefix(fields);
  }

  lemma WholePrefix<T>(s: seq<T>)
    ensures s[..|s|] == s
  {
  }

  /** The first loop: as far as there are dictionaries. */
  method WalkDictPath(accumulator: Dict, fields: seq<string>, ghost t: Shape) returns (p: Dict, fIdx: nat)
    requires Rooted(accumulator, t)
    ensures fIdx <= |fields| && HasNode(t, fields[..fIdx]) && NodeAt(t, fields[..fIdx]).ref == p
    ensures fIdx < |fields| ==> !HasNode(t, fields[..fIdx + 1])
  {
    p := accumulator;
    fIdx := 0;
    while fIdx < |fields|
      invariant fIdx <= |fields|
      invariant HasNode(t, fields[..fIdx]) && NodeAt(t, fields[..fIdx]).ref == p
    {
      ghost var here := fields[..fIdx];
      PrefixGrows(fields, fIdx);
      NodeAtHolds(t, here);
      NodeAtChild(t, here, fields[fIdx]);
      if fields[fIdx] !in p.m || p.m[fields[fIdx]].Plain? {
        return;
      }
      p := p.m[fields[fIdx]].d;
      fIdx := fIdx + 1;
    }
  }

  /** One turn of the second loop. */
  method MakeStep(p: Dict, fields: seq<string>, fIdx: nat, ghost last: string, ghost t: Shape)
    returns (c: Dict, ghost t': Shape)
    requires fIdx < |fields| && t.Node? && Rooted(t.ref, t)
    requires HasNode(t, fields[..fIdx]) && NodeAt(t, fields[..fIdx]).ref == p
    requires !HasNode(t, fields[..fIdx + 1])
    modifies p
    ensures t'.Node? && t'.ref == t.ref && Rooted(t.ref, t') && fresh(Objs(t') - Objs(t))
    ensures HasNode(t', fields[..fIdx + 1]) && NodeAt(t', fields[..fIdx + 1]).ref == c
    ensures fIdx + 1 < |fields| ==> !HasNode(t', fields[..fIdx + 2])
    ensures ValueOf(t).Obj? && ValueOf(t').Obj?
    ensures A.InsertAllow(ValueOf(t'), fields + [last]) == A.InsertAllow(ValueOf(t), fields + [last])
  {
    ghost var here, k := fields[..fIdx], fields[fIdx];
    c := new Dict();
    EmptyNode(c);
    ghost var child := Node(c, map[], {c});
    t' := Put(p, fields[fIdx], Ref(c), t, here, child);
    PrefixGrows(fields, fIdx);
    NodeAfterBind(t, here, k, child);
    if fIdx + 1 < |fields| {
      PrefixGrows(fields, fIdx + 1);
      NodeAtChild(t', fields[..fIdx + 1], fields[fIdx + 1]);
    }
    HasNodeValue(t, here);
    HasNodeValue(t, fields[..fIdx + 1]);
    BindValueOf(t, here, k, child);
    A.StepMakesWay(ValueOf(t), fIdx, fields, last);
  }

  /** One allow entry: the way to its last step, and the mark there. */
  method InsertAllowEntry(wlDict: Dict, wlFields: seq<string>, ghost t: Shape) returns (ghost t': Shape)
    requires Rooted(wlDict, t) && wlFields != []
    modifies Objs(t)
    ensures Rooted(wlDict, t') && fresh(Objs(t') - Objs(t))
    ensures ValueOf(t).Obj? && ValueOf(t') == A.InsertAllow(ValueOf(t), wlFields)
  {
    var n := |wlFields| - 1;
    var d;
    ghost var t1;
    d, t1 := BuildDictPath(wlDict, wlFields[..n], wlFields[n], t);
    PrefixGrows(wlFields, n);
    NodeAtFacts(t1, wlFields[..n]);
    t' := Put(d, wlFields[n], Plain(Bool(true)), t1, wlFields[..n], Tip(Bool(true)));
    HasNodeValue(t1, wlFields[..n]);
    A.InsertIsBind(ValueOf(t1), wlFields[..n], wlFields[n]);
    BindValueOf(t1, wlFields[..n], wlFields[n], Tip(Bool(true)));
  }

  method NewAllowlistingFilter(list: seq<string>) returns (wlDict: Dict, ghost t: Shape)
    ensures Rooted(wlDict, t) && fresh(Objs(t))
    ensures ValueOf(t) == A.AllowTreeOf(Paths(list))
  {
    wlDict := new Dict();
    EmptyNode(wlDict);
    t := Node(wlDict, map[], {wlDict});
    ghost var ps, target := Paths(list), A.AllowTreeOf(Paths(list));
    for i := 0 to |list|
      invariant Rooted(wlDict, t) && fresh(Objs(t))
      invariant ValueOf(t).Obj? && A.InsertAllAllow(ValueOf(t), ps[i..]) == target
    {
      assert ps[i..][0] == Split(list[i], '.') && ps[i..][1..] == ps[i + 1..];
      t := InsertAllowEntry(wlDict, Split(list[i], '.'), t);
    }
  }

  /** The filter that `newAllowlistingFilter` returns: prune, and clear what pruning calls empty. */
  method ApplyAllow(wlDict: Dict, data: Dict, ghost wt: Shape, ghost t: Shape) returns (ghost t': Shape)
    requires Rooted(wlDict, wt) && Rooted(data, t) && Objs(wt) !! Objs(t)
    modifies Objs(t)
    ensures Rooted(data, t') && Objs(t') <= Objs(t)
    ensures ValueOf(wt).Obj? && ValueOf(t).Obj? && ValueOf(t') == A.Pruned(ValueOf(wt), ValueOf(t))
  {
    var canDelete;
    canDelete, t' := AllowlistPrune(wlDict, data, wt, t);
    EmptyAgrees(t');
    if canDelete {
      t' := Clear(data, t');
      EmptyAgrees(t');
    }
  }

  method Clear(data: Dict, ghost t: Shape) returns (ghost t': Shape)
    requires Rooted(data, t)
    modifies data
    ensures Rooted(data, t') && Objs(t') <= Objs(t) && data.m == map[]
  {
    t' := t;
    var remaining := data.m.Keys;
    while remaining != {}
      invariant Rooted(data, t') && Objs(t') <= Objs(t) && t'.kids.Keys == remaining
      decreases remaining
    {
      var k :| k in remaining;
      t' := DropKey(data, k, t');
      remaining := remaining - {k};
    }
  }
}
