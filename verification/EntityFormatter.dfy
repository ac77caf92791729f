/** The entity formatter (proxy/formatter.go): target extraction, property filter, key mapping and
    grouping, in that order, on one response. */
module EntityFormatter {
  import opened JsonTree
  import opened Options
  import opened DictHeap
  import opened FilterHeap
  import opened Permutations
  import D = DenyFilter
  import A = AllowFilter

  // ---------------------------------------------------------------- the key mapping

  /** One turn of the rename loop: bind the new key, then delete the former one. */
  function RenameStep<V>(m: map<string, V>, former: string, newKey: string): map<string, V> {
    if former in m then m[newKey := m[former]] - {former} else m
  }

  /** The loop over the mapping in the order in which the runtime happens to yield its keys. */
  function RenameAll<V>(m: map<string, V>, mapping: map<string, string>, order: seq<string>): map<string, V>
    requires Elements(order) <= mapping.Keys
    decreases |order|
  {
    if order == [] then m
    else
      assert Elements(order[1..]) <= Elements(order);
      RenameAll(RenameStep(m, order[0], ElementsLookup(mapping, order)), mapping, order[1..])
  }

  function ElementsLookup(mapping: map<string, string>, order: seq<string>): string
    requires order != [] && Elements(order) <= mapping.Keys
  {
    assert order[0] in Elements(order);
    mapping[order[0]]
  }

  ghost predicate IsTarget<V>(mapping: map<string, string>, done: set<string>, m: map<string, V>, x: string)
    requires done <= mapping.Keys
  {
    exists f :: f in done && f in m && mapping[f] == x
  }

  lemma MoreTargets<V>(mapping: map<string, string>, done: set<string>, m: map<string, V>, f: string, x: string)
    requires done <= mapping.Keys && f in mapping
    ensures IsTarget(mapping, done + {f}, m, x) <==> IsTarget(mapping, done, m, x) || (f in m && mapping[f] == x)
  {
    if IsTarget(mapping, done, m, x) {
      var g :| g in done && g in m && mapping[g] == x;
      assert g in done + {f};
    }
    if f in m && mapping[f] == x {
      assert f in done + {f};
    }
  }

  /** r is m with the keys of `done` renamed all at once: targets hold what their sources held,
      sources are gone unless they are targets, and everything else is as it was. */
  ghost predicate RenamedAtOnce<V>(
    mapping: map<string, string>, done: set<string>, m: map<string, V>, r: map<string, V>)
    requires done <= mapping.Keys
  {
    && (forall f :: f in done && f in m ==> mapping[f] in r && r[mapping[f]] == m[f])
    && (forall x :: x in r ==> (x in m && x !in done) || IsTarget(mapping, done, m, x))
    && (forall x :: x in m && x !in done && !IsTarget(mapping, done, m, x) ==> x in r && r[x] == m[x])
  }

  /** Targets are pairwise distinct and none of them is a source. */
  predicate SimpleMapping(mapping: map<string, string>) {
    && (forall f :: f in mapping ==> mapping[f] !in mapping)
    && (forall f, g :: f in mapping && g in mapping && f != g ==> mapping[f] != mapping[g])
  }

  lemma StepMovesTargets<V>(mapping: map<string, string>, done: set<string>, m: map<string, V>, r: map<string, V>,
      f: string, g: string)
    requires SimpleMapping(mapping) && done <= mapping.Keys && f in mapping && f !in done
    requires RenamedAtOnce(mapping, done, m, r) && g in done + {f} && g in m
    ensures var r' := RenameStep(r, f, mapping[f]); mapping[g] in r' && r'[mapping[g]] == m[g]
  {
    assert !IsTarget(mapping, done, m, f);
    if g != f {
      assert mapping[g] != mapping[f] && mapping[g] != f;
    }
  }

  lemma StepMovesNoOther<V>(mapping: map<string, string>, done: set<string>, m: map<string, V>, r: map<string, V>,
      f: string, x: string)
    requires SimpleMapping(mapping) && done <= mapping.Keys && f in mapping && f !in done
    requires RenamedAtOnce(mapping, done, m, r)
    ensures var r' := RenameStep(r, f, mapping[f]);
      && (x in r' ==> (x in m && x !in done + {f}) || IsTarget(mapping, done + {f}, m, x))
      && (x in m && x !in done + {f} && !IsTarget(mapping, done + {f}, m, x) ==> x in r' && r'[x] == m[x])
  {
    MoreTargets(mapping, done, m, f, x);
  }

  lemma RenameStepAtOnce<V>(mapping: map<string, string>, done: set<string>, m: map<string, V>, r: map<string, V>,
      f: string)
    requires SimpleMapping(mapping) && done <= mapping.Keys && f in mapping && f !in done
    requires RenamedAtOnce(mapping, done, m, r)
    ensures RenamedAtOnce(mapping, done + {f}, m, RenameStep(r, f, mapping[f]))
  {
    var r' := RenameStep(r, f, mapping[f]);
    forall g | g in done + {f} && g in m
      ensures mapping[g] in r' && r'[mapping[g]] == m[g]
    {
      StepMovesTargets(mapping, done, m, r, f, g);
    }
    forall x
      ensures x in r' ==> (x in m && x !in done + {f}) || IsTarget(mapping, done + {f}, m, x)
      ensures x in m && x !in done + {f} && !IsTarget(mapping, done + {f}, m, x) ==> x in r' && r'[x] == m[x]
    {
      StepMovesNoOther(mapping, done, m, r, f, x);
    }
  }

  lemma {:induction false} RenameAllAtOnce<V>(
    mapping: map<string, string>, done: set<string>, m: map<string, V>, r: map<string, V>, order: seq<string>)
    requires SimpleMapping(mapping) && done <= mapping.Keys
    requires Enumerates(order, mapping.Keys - done) && RenamedAtOnce(mapping, done, m, r)
    ensures RenamedAtOnce(mapping, mapping.Keys, m, RenameAll(r, mapping, order))
    decreases |order|
  {
    if order == [] {
      assert Elements(order) == {};
      assert mapping.Keys == (mapping.Keys - done) + done == done;
    } else {
      var f := order[0];
      assert f in Elements(order);
      RenameStepAtOnce(mapping, done, m, r, f);
      assert Elements(order[1..]) == mapping.Keys - (done + {f}) by {
        assert Elements(order) == {f} + Elements(order[1..]);
        assert f !in Elements(order[1..]);
      }
      RenameAllAtOnce(mapping, done + {f}, m, RenameStep(r, f, mapping[f]), order[1..]);
    }
  }

  lemma {:induction false} SomeEnumeration(keys: set<string>) returns (order: seq<string>)
    ensures Enumerates(order, keys)
    decreases keys
  {
    order := [];
    if keys != {} {
      var k :| k in keys;
      var rest := SomeEnumeration(keys - {k});
      order := rest + [k];
      EnumerationEnd(rest, keys - {k}, k);
    }
  }

  /** Whatever happened before, the key processed last is not in the result. */
  lemma {:induction false} LastKeyIsGone<V>(m: map<string, V>, mapping: map<string, string>, rest: seq<string>,
      k: string)
    requires Elements(rest + [k]) <= mapping.Keys
    ensures k !in RenameAll(m, mapping, rest + [k])
    decreases |rest|
  {
    var order := rest + [k];
    if rest == [] {
      assert order == [k] && order[1..] == [];
    } else {
      assert order[1..] == rest[1..] + [k] && Elements(order[1..]) <= Elements(order);
      LastKeyIsGone(RenameStep(m, order[0], ElementsLookup(mapping, order)), mapping, rest[1..], k);
    }
  }

  ghost predicate RenamesAtOnceAlways<V(!new)>(mapping: map<string, string>) {
    forall m: map<string, V>, order: seq<string> | Enumerates(order, mapping.Keys) ::
      RenamedAtOnce(mapping, mapping.Keys, m, RenameAll(m, mapping, order))
  }

  /** The in-place loop renames all keys at once, on every response and for every iteration order of
      the mapping, exactly if targets are pairwise distinct and none is a source. In particular a
      key mapped to itself is not kept: the loop deletes it. */
  lemma {:induction false} RenameIsSimultaneousIff<V(!new)>(mapping: map<string, string>, a: V, b: V)
    requires a != b
    ensures RenamesAtOnceAlways<V>(mapping) <==> SimpleMapping(mapping)
  {
    if SimpleMapping(mapping) {
      forall m: map<string, V>, order: seq<string> | Enumerates(order, mapping.Keys)
        ensures RenamedAtOnce(mapping, mapping.Keys, m, RenameAll(m, mapping, order))
      {
        assert mapping.Keys - {} == mapping.Keys;
        RenameAllAtOnce(mapping, {}, m, m, order);
      }
    } else if f :| f in mapping && mapping[f] in mapping {
      var t := mapping[f];
      var rest := SomeEnumeration(mapping.Keys - {t});
      EnumerationEnd(rest, mapping.Keys - {t}, t);
      assert mapping.Keys - {t} + {t} == mapping.Keys;
      var m: map<string, V> := map[f := a];
      LastKeyIsGone(m, mapping, rest, t);
      assert Enumerates(rest + [t], mapping.Keys);
      assert !RenamedAtOnce(mapping, mapping.Keys, m, RenameAll(m, mapping, rest + [t]));
    } else {
      var f, g :| f in mapping && g in mapping && f != g && mapping[f] == mapping[g];
      var order := SomeEnumeration(mapping.Keys);
      var m: map<string, V> := map[f := a, g := b];
      assert m[f] == a && m[g] == b;
      assert !RenamedAtOnce(mapping, mapping.Keys, m, RenameAll(m, mapping, order));
    }
  }

  lemma AtOnceIsUnique<V>(mapping: map<string, string>, m: map<string, V>, r: map<string, V>, r': map<string, V>)
    requires SimpleMapping(mapping)
    requires RenamedAtOnce(mapping, mapping.Keys, m, r) && RenamedAtOnce(mapping, mapping.Keys, m, r')
    ensures r == r'
  {
    forall x
      ensures x in r ==> x in r' && r[x] == r'[x]
      ensures x in r' ==> x in r && r[x] == r'[x]
    {
      if f :| f in mapping && f in m && mapping[f] == x {
        assert r[mapping[f]] == m[f] == r'[mapping[f]];
      }
    }
  }

  lemma RenamedProper(t: Shape, former: string, newKey: string)
    requires t.Node? && Proper(t) && former in t.kids
    ensures Proper(Node(t.ref, t.kids[newKey := t.kids[former]] - {former}, t.objs))
  {
    var kids := t.kids[newKey := t.kids[former]] - {former};
    forall k, k' | k in kids && k' in kids && k != k'
      ensures Objs(kids[k]) !! Objs(kids[k'])
    {
      assert k == newKey ==> k' != newKey && k' in t.kids && k' != former;
      assert k' == newKey ==> k != newKey && k in t.kids && k != former;
    }
  }

  /** One turn of the rename loop, in place. */
  method RenameKey(data: Dict, former: string, newKey: string, ghost t: Shape) returns (ghost t': Shape)
    requires Rooted(data, t)
    modifies data
    ensures Rooted(data, t') && Objs(t') <= Objs(t)
    ensures t'.kids == RenameStep(t.kids, former, newKey)
  {
    t' := t;
    if former in data.m {
      var v := data.m[former];
      data.m := data.m[newKey := v];
      data.m := data.m - {former};
      t' := Node(data, t.kids[newKey := t.kids[former]] - {former}, t.objs);
      RenamedProper(t, former, newKey);
    }
  }

  /** The rename loop; `order` tells in which order it took the keys. */
  method RenameKeys(data: Dict, mapping: map<string, string>, ghost t: Shape)
    returns (ghost t': Shape, ghost order: seq<string>)
    requires Rooted(data, t)
    modifies data
    ensures Rooted(data, t') && Objs(t') <= Objs(t)
    ensures Enumerates(order, mapping.Keys) && t'.kids == RenameAll(t.kids, mapping, order)
  {
    t' := t;
    order := [];
    var remaining := mapping.Keys;
    while remaining != {}
      invariant Rooted(data, t') && Objs(t') <= Objs(t)
      invariant remaining <= mapping.Keys && Enumerates(order, mapping.Keys - remaining)
      invariant t'.kids == RenameAll(t.kids, mapping, order)
      decreases remaining
    {
      var formerKey :| formerKey in remaining;
      t' := RenameKey(data, formerKey, mapping[formerKey], t');
      EnumerationStep(order, mapping.Keys, remaining, formerKey);
      RenameAllSnoc(t.kids, mapping, order, formerKey);
      order := order + [formerKey];
      remaining := remaining - {formerKey};
    }
    assert mapping.Keys - {} == mapping.Keys;
  }

  lemma {:induction false} RenameAllSnoc<V>(m: map<string, V>, mapping: map<string, string>, order: seq<string>,
      k: string)
    requires Elements(order) <= mapping.Keys && k in mapping
    ensures Elements(order + [k]) <= mapping.Keys
    ensures RenameAll(m, mapping, order + [k]) == RenameStep(RenameAll(m, mapping, order), k, mapping[k])
    decreases |order|
  {
    assert Elements(order + [k]) == Elements(order) + {k};
    if order == [] {
      assert order + [k] == [k] && [k][1..] == [];
    } else {
      assert (order + [k])[1..] == order[1..] + [k] && Elements(order[1..]) <= Elements(order);
      RenameAllSnoc(RenameStep(m, order[0], ElementsLookup(mapping, order)), mapping, order[1..], k);
    }
  }

  // ---------------------------------------------------------------- the target

  /** The dictionary at the target path, or an empty one where there is none. */
  function TargetOf(v: Json, parts: Path): (r: Json)
    requires v.Obj?
    ensures r.Obj?
    decreases |parts|
  {
    if parts == [] then v
    else if parts[0] in v.m && v.m[parts[0]].Obj? then TargetOf(v.m[parts[0]], parts[1..])
    else Obj(map[])
  }

  lemma {:induction false} TargetIsValueAtPath(v: Json, parts: Path)
    requires v.Obj?
    ensures TargetOf(v, parts) == if HasObj(v, parts) then Get(v, parts).value else Obj(map[])
    decreases |parts|
  {
    if parts != [] {
      KindAtStep(v, parts);
      if parts[0] in v.m && v.m[parts[0]].Obj? {
        TargetIsValueAtPath(v.m[parts[0]], parts[1..]);
      }
    }
  }

  method ExtractTarget(target: string, data: Dict, ghost t: Shape) returns (d: Dict, ghost t': Shape)
    requires Rooted(data, t)
    ensures Rooted(d, t') && (Objs(t') <= Objs(t) || fresh(Objs(t')))
    ensures ValueOf(t).Obj? && ValueOf(t') == TargetOf(ValueOf(t), Split(target, '.'))
  {
    var parts := Split(target, '.');
    d, t' := data, t;
    var i := 0;
    while i < |parts|
      invariant 0 <= i <= |parts|
      invariant Rooted(d, t') && Objs(t') <= Objs(t)
      invariant ValueOf(t').Obj? && TargetOf(ValueOf(t'), parts[i..]) == TargetOf(ValueOf(t), parts)
    {
      assert parts[i..][0] == parts[i] && parts[i..][1..] == parts[i + 1..];
      LookupAgrees(t', parts[i]);
      if parts[i] in d.m && d.m[parts[i]].Ref? {
        t' := t'.kids[parts[i]];
        d := d.m[parts[i]].d;
      } else {
        d := new Dict();
        EmptyNode(d);
        t' := Node(d, map[], {d});
        return;
      }
      i := i + 1;
    }
  }

  // ---------------------------------------------------------------- the whole formatter

  /** A backend's formatting options, as configured. */
  datatype Remote = Remote(
    allowList: seq<string>, denyList: seq<string>, target: string, group: string, mapping: map<string, string>)

  /** Only the first segment of a mapping's target counts. */
  function Sanitized(mapping: map<string, string>): (r: map<string, string>)
    ensures r.Keys == mapping.Keys
  {
    map k | k in mapping :: Split(mapping[k], '.')[0]
  }

  /** The property filter: the allow list if there is one, else the deny list. */
  function Filtered(remote: Remote, v: Json): (r: Json)
    requires v.Obj?
    ensures r.Obj?
  {
    if remote.allowList != [] then A.Pruned(A.AllowTreeOf(Paths(remote.allowList)), v)
    else D.Denied(D.DenyTreeOf(Paths(remote.denyList)), v)
  }

  function Targeted(remote: Remote, v: Json): (r: Json)
    requires v.Obj?
    ensures r.Obj?
  {
    if remote.target != "" then TargetOf(v, Split(remote.target, '.')) else v
  }

  function Renamed(remote: Remote, v: Json, order: seq<string>): (r: Json)
    requires v.Obj? && Elements(order) <= remote.mapping.Keys
    ensures r.Obj?
  {
    Obj(RenameAll(v.m, Sanitized(remote.mapping), order))
  }

  function Grouped(remote: Remote, v: Json): Json {
    if remote.group != "" then Obj(map[remote.group := v]) else v
  }

  /** What the formatter makes of the data of a response; the steps on an empty dictionary, which the
      source skips, would change nothing. */
  function Formatted(remote: Remote, v: Json, order: seq<string>): Json
    requires v.Obj? && Elements(order) <= remote.mapping.Keys
  {
    Grouped(remote, Renamed(remote, Filtered(remote, Targeted(remote, v)), order))
  }

  lemma {:induction false} RenameEmpty(mapping: map<string, string>, order: seq<string>)
    requires Elements(order) <= mapping.Keys
    ensures RenameAll<Json>(map[], mapping, order) == map[]
    decreases |order|
  {
    if order != [] {
      assert Elements(order[1..]) <= Elements(order);
      RenameEmpty(mapping, order[1..]);
    }
  }

  /** With a simple mapping the result does not depend on the iteration order of the mapping. */
  lemma {:induction false} FormattedIgnoresOrder(remote: Remote, v: Json, order: seq<string>, order': seq<string>)
    requires v.Obj? && SimpleMapping(Sanitized(remote.mapping))
    requires Enumerates(order, remote.mapping.Keys) && Enumerates(order', remote.mapping.Keys)
    ensures Formatted(remote, v, order) == Formatted(remote, v, order')
  {
    var mapping, m := Sanitized(remote.mapping), Filtered(remote, Targeted(remote, v)).m;
    assert mapping.Keys - {} == mapping.Keys;
    RenameAllAtOnce(mapping, {}, m, m, order);
    RenameAllAtOnce(mapping, {}, m, m, order');
    AtOnceIsUnique(mapping, m, RenameAll(m, mapping, order), RenameAll(m, mapping, order'));
  }

  // ---------------------------------------------------------------- the whole formatter, path by path

  /** Where in the response the formatter looks. */
  function TargetPath(remote: Remote): Path {
    if remote.target == "" then [] else Split(remote.target, '.')
  }

  /** Where in the result it puts what it found. */
  function GroupPath(remote: Remote): Path {
    if remote.group == "" then [] else [remote.group]
  }

  /** The lists let a path below the target through: with an allow list, if an effective entry that exists
      there is above or below it; without one, if no entry of the deny list is above it. */
  ghost predicate LetsThrough(remote: Remote, v: Json, p: Path) {
    if remote.allowList != [] then
      exists entry :: A.Effective(Paths(remote.allowList), entry)
        && Get(v, TargetPath(remote) + entry).Some? && Comparable(entry, p)
    else !D.Listed(Paths(remote.denyList), p)
  }

  /** The kind of what is at a path below the target, if the lists let it through. */
  ghost function KindThrough(remote: Remote, v: Json, p: Path): Kind {
    if LetsThrough(remote, v, p) then KindAt(v, TargetPath(remote) + p) else Absent
  }

  /** Some key is renamed to x, and there. */
  ghost predicate Renames(remote: Remote, v: Json, x: string) {
    exists k :: k in remote.mapping && Split(remote.mapping[k], '.')[0] == x && KindThrough(remote, v, [k]) != Absent
  }

  lemma {:induction false} GetBelow(v: Json, a: Path, b: Path)
    ensures Get(v, a + b) == if Get(v, a).Some? then Get(Get(v, a).value, b) else None
    decreases |a|
  {
    if a == [] {
      assert a + b == b;
    } else {
      assert (a + b)[1..] == a[1..] + b;
      if v.Obj? && a[0] in v.m {
        GetBelow(v.m[a[0]], a[1..], b);
      }
    }
  }

  /** What is below the target is what is there in the response. */
  lemma TargetedGet(remote: Remote, v: Json, p: Path)
    requires v.Obj? && p != []
    ensures Get(Targeted(remote, v), p) == Get(v, TargetPath(remote) + p)
  {
    var path := TargetPath(remote);
    GetBelow(v, path, p);
    TargetIsValueAtPath(v, path);
    assert Targeted(remote, v) == TargetOf(v, path);
  }

  lemma FilteredKind(remote: Remote, v: Json, p: Path)
    requires v.Obj? && p != []
    ensures KindAt(Filtered(remote, Targeted(remote, v)), p) == KindThrough(remote, v, p)
  {
    var base := Targeted(remote, v);
    TargetedGet(remote, v, p);
    if remote.allowList != [] {
      var ps := Paths(remote.allowList);
      A.AllowFilterKinds(ps, base, p);
      forall entry | A.Effective(ps, entry)
        ensures Get(base, entry) == Get(v, TargetPath(remote) + entry)
      {
        TargetedGet(remote, v, entry);
      }
    } else {
      D.DenyFilterKinds(Paths(remote.denyList), base, p);
    }
  }

  lemma GroupedKind(remote: Remote, w: Json, p: Path)
    requires p != []
    ensures KindAt(Grouped(remote, w), GroupPath(remote) + p) == KindAt(w, p)
  {
    GetBelow(Grouped(remote, w), GroupPath(remote), p);
  }

  /** The kinds in a dictionary whose keys were renamed at once. */
  lemma RenamedKind(mapping: map<string, string>, m: map<string, Json>, r: map<string, Json>, k: string, q: Path)
    requires SimpleMapping(mapping) && RenamedAtOnce(mapping, mapping.Keys, m, r)
    ensures k in mapping && k in m ==> KindAt(Obj(r), [mapping[k]] + q) == KindAt(Obj(m), [k] + q)
    ensures k in mapping ==> KindAt(Obj(r), [k] + q) == Absent
    ensures k !in mapping && !IsTarget(mapping, mapping.Keys, m, k) ==>
      KindAt(Obj(r), [k] + q) == KindAt(Obj(m), [k] + q)
  {
    KindAtHead(m, k, q);
    KindAtHead(r, k, q);
    if k in mapping {
      KindAtHead(r, mapping[k], q);
      assert !IsTarget(mapping, mapping.Keys, m, k);
    }
  }

  lemma KindAtHead(m: map<string, Json>, k: string, q: Path)
    ensures KindAt(Obj(m), [k] + q) == if k in m then KindAt(m[k], q) else Absent
  {
    assert ([k] + q)[1..] == q;
    KindAtStep(Obj(m), [k] + q);
  }

  /** End to end, path by path, for a simple mapping and whatever the order: at the first segment of what a
      key is renamed to, and below, the result has what the response has at the key below the target, as far as
      the lists let it through; a renamed key itself is gone; every other key is where it was, unless one
      is renamed to it; and with a group, that is the only key of the result. */
  lemma {:induction false} FormattedKinds(remote: Remote, v: Json, order: seq<string>, k: string, q: Path)
    requires v.Obj? && SimpleMapping(Sanitized(remote.mapping)) && Enumerates(order, remote.mapping.Keys)
    ensures var result := Formatted(remote, v, order);
      && (k in remote.mapping && KindThrough(remote, v, [k]) != Absent ==>
            KindAt(result, GroupPath(remote) + ([Split(remote.mapping[k], '.')[0]] + q)) ==
              KindThrough(remote, v, [k] + q))
      && (k in remote.mapping ==> KindAt(result, GroupPath(remote) + ([k] + q)) == Absent)
      && (k !in remote.mapping && !Renames(remote, v, k) ==>
            KindAt(result, GroupPath(remote) + ([k] + q)) == KindThrough(remote, v, [k] + q))
      && (remote.group != "" && k != remote.group ==> KindAt(result, [k] + q) == Absent)
      && KindAt(result, GroupPath(remote)) == Inner
  {
    var mapping, filtered := Sanitized(remote.mapping), Filtered(remote, Targeted(remote, v));
    var r := RenameAll(filtered.m, mapping, order);
    assert mapping.Keys - {} == mapping.Keys;
    RenameAllAtOnce(mapping, {}, filtered.m, filtered.m, order);
    RenamedKind(mapping, filtered.m, r, k, q);
    KeysThrough(remote, v, k);
    FilteredKind(remote, v, [k] + q);
    GroupedKind(remote, Obj(r), [k] + q);
    if k in mapping {
      GroupedKind(remote, Obj(r), [mapping[k]] + q);
    }
    GroupAlone(remote, Obj(r), k, q);
  }

  lemma GroupAlone(remote: Remote, w: Json, k: string, q: Path)
    requires w.Obj?
    ensures remote.group != "" && k != remote.group ==> KindAt(Grouped(remote, w), [k] + q) == Absent
    ensures KindAt(Grouped(remote, w), GroupPath(remote)) == Inner
  {
    if remote.group != "" {
      KindAtHead(map[remote.group := w], k, q);
      KindAtHead(map[remote.group := w], remote.group, []);
      assert [remote.group] + [] == [remote.group];
    }
  }

  /** Which keys come through the filter, and which are targets of those that do. */
  lemma KeysThrough(remote: Remote, v: Json, x: string)
    requires v.Obj?
    ensures var mapping, m := Sanitized(remote.mapping), Filtered(remote, Targeted(remote, v)).m;
      && (x in m <==> KindThrough(remote, v, [x]) != Absent)
      && (IsTarget(mapping, mapping.Keys, m, x) <==> Renames(remote, v, x))
  {
    var mapping, m := Sanitized(remote.mapping), Filtered(remote, Targeted(remote, v)).m;
    forall k
      ensures k in m <==> KindThrough(remote, v, [k]) != Absent
    {
      FilteredKind(remote, v, [k]);
      KindAtHead(m, k, []);
      assert [k] + [] == [k];
    }
    if Renames(remote, v, x) {
      var k :| k in remote.mapping && Split(remote.mapping[k], '.')[0] == x && KindThrough(remote, v, [k]) != Absent;
      assert k in mapping.Keys && k in m && mapping[k] == x;
    }
  }

  /** If there is no dictionary at the target, nothing is left: an empty result, or one that holds only the
      group, which is empty. */
  lemma NoTargetNothing(remote: Remote, v: Json, order: seq<string>, q: Path)
    requires v.Obj? && SimpleMapping(Sanitized(remote.mapping)) && Enumerates(order, remote.mapping.Keys)
    requires !HasObj(v, TargetPath(remote)) && q != []
    ensures KindAt(Formatted(remote, v, order), GroupPath(remote) + q) == Absent
  {
    var k, rest := q[0], q[1..];
    assert q == [k] + rest;
    GetBelow(v, TargetPath(remote), q);
    forall f, p
      ensures KindThrough(remote, v, [f] + p) == Absent
    {
      GetBelow(v, TargetPath(remote), [f] + p);
    }
    assert forall f :: [f] + [] == [f] && KindThrough(remote, v, [f] + []) == Absent;
    FormattedKinds(remote, v, order, k, rest);
  }

  lemma {:induction false} RenameValues(kids: map<string, Shape>, mapping: map<string, string>, order: seq<string>)
    requires Elements(order) <= mapping.Keys
    ensures Values(RenameAll(kids, mapping, order)) == RenameAll(Values(kids), mapping, order)
    decreases |order|
  {
    if order != [] {
      var n := ElementsLookup(mapping, order);
      assert Elements(order[1..]) <= Elements(order);
      assert Values(RenameStep(kids, order[0], n)) == RenameStep(Values(kids), order[0], n);
      RenameValues(RenameStep(kids, order[0], n), mapping, order[1..]);
    }
  }

  ghost function Values(kids: map<string, Shape>): map<string, Json> {
    map k | k in kids :: ValueOf(kids[k])
  }

  class Formatter {
    const remote: Remote
    const tree: Dict
    ghost const shape: Shape

    /** The filter's compiled dictionary is still what it was compiled to. */
    ghost predicate Valid()
      reads Objs(shape)
    {
      && Rooted(tree, shape)
      && ValueOf(shape) == (if remote.allowList != [] then A.AllowTreeOf(Paths(remote.allowList))
                            else D.DenyTreeOf(Paths(remote.denyList)))
    }

    constructor (remote: Remote)
      ensures Valid() && this.remote == remote && fresh(Objs(shape))
    {
      var d;
      ghost var s;
      if |remote.allowList| > 0 {
        d, s := NewAllowlistingFilter(remote.allowList);
      } else {
        d, s := NewDenylistingFilter(remote.denyList);
      }
      this.remote := remote;
      tree := d;
      shape := s;
    }

    /** The property filter, which an empty dictionary is spared. */
    method Filter(data: Dict, ghost t: Shape) returns (ghost t': Shape)
      requires Valid() && Rooted(data, t) && Objs(shape) !! Objs(t)
      modifies Objs(t)
      ensures Rooted(data, t') && Objs(t') <= Objs(t)
      ensures ValueOf(t).Obj? && ValueOf(t') == Filtered(remote, ValueOf(t))
    {
      EmptyAgrees(t);
      if data.m == map[] {
        return t;
      }
      if |remote.allowList| > 0 {
        t' := ApplyAllow(tree, data, shape, t);
      } else {
        t' := RecDelete(tree, Ref(data), shape, t);
      }
    }

    /** The renaming, which an empty dictionary is spared. */
    method Rename(data: Dict, ghost t: Shape) returns (ghost t': Shape, ghost order: seq<string>)
      requires Rooted(data, t)
      modifies data
      ensures Rooted(data, t') && Objs(t') <= Objs(t) && Enumerates(order, remote.mapping.Keys)
      ensures ValueOf(t).Obj? && ValueOf(t') == Renamed(remote, ValueOf(t), order)
    {
      EmptyAgrees(t);
      t' := t;
      var mapping := Sanitized(remote.mapping);
      if data.m != map[] {
        t', order := RenameKeys(data, mapping, t);
        RenameValues(t.kids, mapping, order);
      } else {
        order := SomeEnumeration(mapping.Keys);
        RenameEmpty(mapping, order);
      }
    }

    /** Formats one response in place. `order` tells in which order the mapping was iterated. */
    method Format(entity: Dict, ghost t: Shape) returns (data: Dict, ghost t': Shape, ghost order: seq<string>)
      requires Valid() && Rooted(entity, t) && Objs(shape) !! Objs(t)
      modifies Objs(t)
      ensures Rooted(data, t') && Enumerates(order, remote.mapping.Keys)
      ensures ValueOf(t).Obj? && ValueOf(t') == Formatted(remote, ValueOf(t), order)
    {
      data, t' := entity, t;
      if remote.target != "" {
        data, t' := ExtractTarget(remote.target, data, t);
      }
      t' := Filter(data, t');
      t', order := Rename(data, t');
      assert ValueOf(t') == Renamed(remote, Filtered(remote, Targeted(remote, ValueOf(t))), order);
      if remote.group != "" {
        data, t' := Wrap(remote.group, data, t');
      }
    }
  }

  method Wrap(group: string, data: Dict, ghost t: Shape) returns (d: Dict, ghost t': Shape)
    requires Rooted(data, t)
    ensures Rooted(d, t') && ValueOf(t') == Obj(map[group := ValueOf(t)])
  {
    d := new Dict();
    d.m := map[group := Ref(data)];
    t' := Node(d, map[group := t], {d} + t.objs);
    assert ValueOf(t').m == map[group := ValueOf(t)];
  }
}
