/** Go's `map[string]interface{}` as a mutable object. Nested dictionaries are references; a ghost
    `Shape` lays out which object sits where, so that one value, and the frame of a change, can be
    read off it. */
module DictHeap {
  import opened Options
  import opened JsonTree

  datatype Val = Plain(a: Scalar) | Ref(d: Dict)

  class Dict {
    var m: map<string, Val>

    constructor ()
      ensures m == map[]
    {
      m := map[];
    }
  }

  /** `objs` covers the objects of the whole subtree. */
  datatype Shape = Tip(a: Scalar) | Node(ref: Dict, kids: map<string, Shape>, objs: set<Dict>)

  function Objs(t: Shape): set<Dict> {
    if t.Node? then t.objs else {}
  }

  /** No object occurs twice: the dictionaries form a tree. */
  ghost predicate Proper(t: Shape) {
    t.Node? ==>
      && t.ref in t.objs
      && (forall k :: k in t.kids ==> Proper(t.kids[k]) && Objs(t.kids[k]) <= t.objs && t.ref !in Objs(t.kids[k]))
      && (forall k, k' :: k in t.kids && k' in t.kids && k != k' ==> Objs(t.kids[k]) !! Objs(t.kids[k']))
  }

  predicate Matches(v: Val, t: Shape) {
    match v
    case Plain(a) => t == Tip(a)
    case Ref(d) => t.Node? && t.ref == d
  }

  /** The heap looks like the shape. */
  ghost predicate Holds(t: Shape)
    reads Objs(t)
  {
    t.Node? ==>
      && t.ref in t.objs && t.ref.m.Keys == t.kids.Keys
      && forall k :: k in t.kids ==> Matches(t.ref.m[k], t.kids[k]) && Objs(t.kids[k]) <= t.objs && Holds(t.kids[k])
  }

  /** The value a shape stands for. */
  ghost function ValueOf(t: Shape): Json {
    match t
    case Tip(a) => Atom(a)
    case Node(_, kids, _) => Obj(map k | k in kids :: ValueOf(kids[k]))
  }

  /** A dictionary that is the root of a tree of dictionaries. */
  ghost predicate Rooted(d: Dict, t: Shape)
    reads Objs(t)
  {
    t.Node? && t.ref == d && Holds(t) && Proper(t)
  }

  /** What a key is bound to, in the heap, in the shape and in the value. */
  lemma LookupAgrees(t: Shape, k: string)
    requires t.Node? && Holds(t)
    ensures ValueOf(t).Obj? && (k in t.ref.m <==> k in t.kids) && (k in t.kids <==> k in ValueOf(t).m)
    ensures k in t.kids ==> Matches(t.ref.m[k], t.kids[k]) && ValueOf(t).m[k] == ValueOf(t.kids[k])
  {
  }

  lemma EmptyNode(d: Dict)
    requires d.m == map[]
    ensures Rooted(d, Node(d, map[], {d})) && ValueOf(Node(d, map[], {d})) == Obj(map[])
  {
    assert ValueOf(Node(d, map[], {d})).m == map[];
  }

  // ---------------------------------------------------------------- nodes deep in a shape

  ghost predicate HasNode(t: Shape, path: Path)
    decreases |path|
  {
    t.Node? && (path != [] ==> path[0] in t.kids && HasNode(t.kids[path[0]], path[1..]))
  }

  ghost function NodeAt(t: Shape, path: Path): (n: Shape)
    requires HasNode(t, path)
    ensures n.Node?
    decreases |path|
  {
    if path == [] then t else NodeAt(t.kids[path[0]], path[1..])
  }

  /** A node after one key is bound to another subtree. */
  ghost function Rebind(t: Shape, key: string, sub: Shape): (r: Shape)
    requires t.Node?
    ensures r.Node? && r.ref == t.ref && r.kids == t.kids[key := sub] && r.objs == t.objs + Objs(sub)
  {
    Node(t.ref, t.kids[key := sub], t.objs + Objs(sub))
  }

  /** The shape after `key` is bound to `sub` in the dictionary at `path`. */
  ghost function Bind(t: Shape, path: Path, key: string, sub: Shape): (r: Shape)
    requires HasNode(t, path)
    ensures r.Node? && r.ref == t.ref
    decreases |path|
  {
    if path == [] then Rebind(t, key, sub)
    else Rebind(t, path[0], Bind(t.kids[path[0]], path[1..], key, sub))
  }

  lemma {:induction false} NodeAtFacts(t: Shape, path: Path)
    requires HasNode(t, path) && Proper(t)
    ensures NodeAt(t, path).ref in Objs(t)
    ensures Proper(NodeAt(t, path)) && Objs(NodeAt(t, path)) <= Objs(t)
    decreases |path|
  {
    if path != [] {
      NodeAtFacts(t.kids[path[0]], path[1..]);
    }
  }

  lemma {:induction false} NodeAtHolds(t: Shape, path: Path)
    requires HasNode(t, path) && Holds(t)
    ensures Holds(NodeAt(t, path))
    decreases |path|
  {
    if path != [] {
      NodeAtHolds(t.kids[path[0]], path[1..]);
    }
  }

  /** Rebinding keeps the tree, if the new subtree takes nothing from its siblings. */
  lemma RebindProper(t: Shape, key: string, sub: Shape, extra: set<Dict>)
    requires t.Node? && Proper(t) && Proper(sub) && Objs(t) !! extra
    requires Objs(sub) <= (if key in t.kids then Objs(t.kids[key]) else {}) + extra
    ensures Proper(Rebind(t, key, sub)) && Objs(Rebind(t, key, sub)) <= Objs(t) + extra
  {
    forall k | k in t.kids && k != key
      ensures Objs(t.kids[k]) !! Objs(sub)
    {
      assert key in t.kids ==> Objs(t.kids[k]) !! Objs(t.kids[key]);
    }
  }

  lemma {:induction false} BindProper(t: Shape, path: Path, key: string, sub: Shape)
    requires HasNode(t, path) && Proper(t) && Proper(sub) && Objs(t) !! Objs(sub)
    ensures Proper(Bind(t, path, key, sub))
    ensures Objs(Bind(t, path, key, sub)) <= Objs(t) + Objs(sub)
    decreases |path|
  {
    if path == [] {
      RebindProper(t, key, sub, Objs(sub));
    } else {
      BindProper(t.kids[path[0]], path[1..], key, sub);
      RebindProper(t, path[0], Bind(t.kids[path[0]], path[1..], key, sub), Objs(sub));
    }
  }

  // ---------------------------------------------------------------- the contents of many objects

  type Contents = map<Dict, map<string, Val>>

  /** The contents recorded for the objects of a shape look like the shape. */
  ghost predicate HoldsIn(h: Contents, t: Shape) {
    t.Node? ==>
      && t.ref in h && h[t.ref].Keys == t.kids.Keys
      && forall k :: k in t.kids ==> Matches(h[t.ref][k], t.kids[k]) && HoldsIn(h, t.kids[k])
  }

  ghost function Snapshot(ds: set<Dict>): Contents
    reads ds
  {
    map d | d in ds :: d.m
  }

  ghost predicate Current(h: Contents, ds: set<Dict>)
    reads ds
  {
    forall d :: d in ds ==> d in h && h[d] == d.m
  }

  lemma {:induction false} HoldsSnapshot(h: Contents, t: Shape)
    requires Proper(t) && Current(h, Objs(t))
    ensures Holds(t) <==> HoldsIn(h, t)
    decreases t
  {
    if t.Node? {
      forall k | k in t.kids
        ensures Holds(t.kids[k]) <==> HoldsIn(h, t.kids[k])
      {
        HoldsSnapshot(h, t.kids[k]);
      }
    }
  }

  lemma {:induction false} HoldsElsewhere(h: Contents, t: Shape, p: Dict, c: map<string, Val>)
    requires HoldsIn(h, t) && Proper(t) && p !in Objs(t)
    ensures HoldsIn(h[p := c], t)
    decreases t
  {
    if t.Node? {
      forall k | k in t.kids
        ensures HoldsIn(h[p := c], t.kids[k])
      {
        HoldsElsewhere(h, t.kids[k], p, c);
      }
    }
  }

  /** The kids that an assignment to `p` does not reach. */
  lemma OtherKidsHold(h: Contents, t: Shape, p: Dict, c: map<string, Val>, except: string)
    requires t.Node? && HoldsIn(h, t) && Proper(t)
    requires p == t.ref || (except in t.kids && p in Objs(t.kids[except]))
    ensures forall k :: k in t.kids && k != except ==> HoldsIn(h[p := c], t.kids[k])
  {
    forall k | k in t.kids && k != except
      ensures HoldsIn(h[p := c], t.kids[k])
    {
      HoldsElsewhere(h, t.kids[k], p, c);
    }
  }

  lemma BindBelowHolds(h: Contents, t: Shape, k: string, kid: Shape)
    requires t.Node? && k in t.kids && t.ref in h && h[t.ref].Keys == t.kids.Keys
    requires forall x :: x in t.kids ==> Matches(h[t.ref][x], t.kids[x]) && (x != k ==> HoldsIn(h, t.kids[x]))
    requires kid.Node? && t.kids[k].Node? && kid.ref == t.kids[k].ref && HoldsIn(h, kid)
    ensures HoldsIn(h, Rebind(t, k, kid))
  {
  }

  /** One assignment `p.m[key] = v`, seen from the root: only the node at the path changes. */
  lemma {:induction false} BindHolds(h: Contents, t: Shape, path: Path, p: Dict, key: string, v: Val, sub: Shape)
    requires HasNode(t, path) && NodeAt(t, path).ref == p && p in h
    requires Proper(t) && HoldsIn(h, t)
    requires Proper(sub) && HoldsIn(h, sub) && Matches(v, sub) && p !in Objs(sub)
    ensures HoldsIn(h[p := h[p][key := v]], Bind(t, path, key, sub))
    decreases |path|
  {
    var c := h[p][key := v];
    if path == [] {
      HoldsElsewhere(h, sub, p, c);
      OtherKidsHold(h, t, p, c, key);
    } else {
      NodeAtFacts(t.kids[path[0]], path[1..]);
      BindHolds(h, t.kids[path[0]], path[1..], p, key, v, sub);
      OtherKidsHold(h, t, p, c, path[0]);
      BindBelowHolds(h[p := c], t, path[0], Bind(t.kids[path[0]], path[1..], key, sub));
    }
  }

  // ---------------------------------------------------------------- the same, on values

  lemma {:induction false} HasNodeValue(t: Shape, path: Path)
    ensures HasNode(t, path) <==> HasObj(ValueOf(t), path)
    ensures HasNode(t, path) ==> Get(ValueOf(t), path) == Some(ValueOf(NodeAt(t, path)))
    decreases |path|
  {
    if path != [] && t.Node? && path[0] in t.kids {
      HasNodeValue(t.kids[path[0]], path[1..]);
    }
  }

  lemma RebindValue(t: Shape, key: string, sub: Shape)
    requires t.Node?
    ensures ValueOf(t).Obj? && ValueOf(Rebind(t, key, sub)) == Obj(ValueOf(t).m[key := ValueOf(sub)])
  {
    assert ValueOf(Rebind(t, key, sub)).m == ValueOf(t).m[key := ValueOf(sub)];
  }

  lemma {:induction false} BindValueOf(t: Shape, path: Path, key: string, sub: Shape)
    requires HasNode(t, path)
    ensures HasObj(ValueOf(t), path)
    ensures ValueOf(Bind(t, path, key, sub)) == BindValue(ValueOf(t), path, key, ValueOf(sub))
    decreases |path|
  {
    HasNodeValue(t, path);
    if path == [] {
      RebindValue(t, key, sub);
    } else {
      BindValueOf(t.kids[path[0]], path[1..], key, sub);
      RebindValue(t, path[0], Bind(t.kids[path[0]], path[1..], key, sub));
    }
  }
}
