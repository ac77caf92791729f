/** Deep copies of requests (proxy/request.go) as the source makes them: on mutable maps, slices and
    readers, through a pooled buffer. A nil map of the source is null here, and reads as empty. */
module RequestClone {
  import opened Options

  newtype byte = x: int | 0 <= x < 256

  /** A body: a reader over a slice of bytes, which is delivered once. */
  class Body {
    const data: array<byte>
    var pos: nat

    constructor (data: array<byte>)
      ensures this.data == data && pos == 0
    {
      this.data := data;
      pos := 0;
    }

    ghost function Rest(): seq<byte>
      reads this, data
    {
      if pos <= data.Length then data[pos..] else []
    }
  }

  /** Go's bytes.Buffer. */
  class Buffer {
    var store: array<byte>
    var len: nat

    constructor ()
      ensures fresh(store) && len == 0 && Valid()
    {
      store := new byte[0];
      len := 0;
    }

    predicate Valid()
      reads this
    {
      len <= store.Length
    }

    method Reset()
      modifies this
      ensures Valid() && len == 0 && store == old(store)
    {
      len := 0;
    }

    /** Room for n more bytes; the slice is replaced if it is too short. */
    method Grow(n: nat)
      requires Valid()
      modifies this
      ensures Valid() && len == old(len) && len + n <= store.Length && (store == old(store) || fresh(store))
      ensures store[..len] == old(store[..len])
    {
      if store.Length < len + n {
        var longer := new byte[2 * store.Length + n](_ => 0);
        for i := 0 to len
          invariant len == old(len) && store == old(store) && longer[..i] == store[..i]
            && store[..len] == old(store[..len])
        {
          longer[i] := store[i];
        }
        store := longer;
      }
    }

    /** Everything the body still delivers is appended. */
    method ReadFrom(r: Body)
      requires Valid() && store != r.data
      modifies this, store, r
      ensures Valid() && (store == old(store) || fresh(store))
      ensures store[..len] == old(store[..len]) + old(r.Rest()) && r.Rest() == []
    {
      ghost var rest, before := r.Rest(), store[..len];
      if r.pos < r.data.Length {
        Grow(r.data.Length - r.pos);
        ghost var start := r.pos;
        while r.pos < r.data.Length
          invariant start <= r.pos <= r.data.Length && r.data[..] == old(r.data[..]) && store != r.data
          invariant len == |before| + (r.pos - start) && len + (r.data.Length - r.pos) <= store.Length
          invariant store == old(store) || fresh(store)
          invariant store[..len] == before + r.data[start..r.pos]
        {
          store[len] := r.data[r.pos];
          len, r.pos := len + 1, r.pos + 1;
        }
      }
    }
  }

  /** Go's sync.Pool: what it hands out is one of the buffers put back, or a new one. `repr` holds the
      pool, every buffer it ever handed out, and the slices they write to. */
  class Pool {
    var free: set<Buffer>
    ghost var repr: set<object>

    constructor ()
      ensures Valid() && fresh(repr) && free == {}
    {
      free := {};
      repr := {this};
    }

    ghost predicate Valid()
      reads this, repr
    {
      this in repr && forall b :: b in free ==> b in repr && b.store in repr && b.Valid()
    }

    method Get() returns (b: Buffer)
      requires Valid()
      modifies this
      ensures Valid() && b.Valid() && b !in free && {b, b.store} <= repr
      ensures old(repr) <= repr && fresh(repr - old(repr))
      ensures fresh(b) || b in old(free)
    {
      if * {
        if free != {} {
          b :| b in free;
          free := free - {b};
          return;
        }
      }
      b := new Buffer();
      repr := repr + {b, b.store};
    }

    method Put(b: Buffer)
      requires Valid() && b.Valid() && b in repr
      modifies this
      ensures Valid() && free == old(free) + {b} && repr == old(repr) + {b.store}
    {
      free := free + {b};
      repr := repr + {b.store};
    }
  }

  class Headers {
    var m: map<string, array<string>>

    constructor ()
      ensures m == map[]
    {
      m := map[];
    }
  }

  class Params {
    var m: map<string, string>

    constructor ()
      ensures m == map[]
    {
      m := map[];
    }
  }

  class Url {
    const text: string

    constructor (text: string)
      ensures this.text == text
    {
      this.text := text;
    }
  }

  class Query {
    var m: map<string, seq<string>>
  }

  class Request {
    var Method: string
    var URL: Url?
    var Query: Query?
    var Path: string
    var Body: Body?
    var Params: Params?
    var Headers: Headers?

    constructor (method_: string, url: Url?, query: Query?, path: string, body: Body?, params: Params?,
        headers: Headers?)
      ensures Method == method_ && URL == url && Query == query && Path == path
      ensures Body == body && Params == params && Headers == headers
    {
      Method, URL, Query, Path := method_, url, query, path;
      Body, Params, Headers := body, params, headers;
    }
  }

  // ---------------------------------------------------------------- what a request holds

  ghost function SliceValues(m: map<string, array<string>>): map<string, seq<string>>
    reads m.Values
  {
    map k | k in m :: m[k][..]
  }

  ghost function HeaderValues(h: Headers?): map<string, seq<string>>
    reads h, if h == null then {} else h.m.Values
  {
    if h == null then map[] else SliceValues(h.m)
  }

  ghost function ParamValues(p: Params?): map<string, string>
    reads p
  {
    if p == null then map[] else p.m
  }

  datatype Content = NoBody | Bytes(bytes: seq<byte>)

  ghost function BodyContent(b: Body?): Content
    reads b, if b == null then {} else {b.data}
  {
    if b == null then NoBody else Bytes(b.Rest())
  }

  ghost function HeaderObjs(h: Headers?): set<object>
    reads h
  {
    if h == null then {} else {h} + h.m.Values
  }

  /** Of headers every value of every key counts, of parameters every value, of a body every byte not yet read. */
  lemma ValuesAre(h: Headers?, p: Params?, b: Body?)
    ensures HeaderValues(h).Keys == if h == null then {} else h.m.Keys
    ensures h != null ==> forall k :: k in h.m ==> HeaderValues(h)[k] == h.m[k][..]
    ensures ParamValues(p).Keys == if p == null then {} else p.m.Keys
    ensures p != null ==> forall k :: k in p.m ==> ParamValues(p)[k] == p.m[k]
    ensures b == null <==> BodyContent(b) == NoBody
    ensures b != null && b.pos <= b.data.Length ==> BodyContent(b) == Bytes(b.data[b.pos..])
  {
  }

  // ---------------------------------------------------------------- cloning

  method CopyOfSlice(vs: array<string>) returns (tmp: array<string>)
    ensures fresh(tmp) && tmp[..] == vs[..]
  {
    tmp := new string[vs.Length](_ => "");
    for i := 0 to vs.Length
      invariant tmp[..i] == vs[..i]
    {
      tmp[i] := vs[i];
    }
  }

  /** `CloneRequestHeaders`: a new map of new slices. */
  method CloneRequestHeaders(headers: Headers?) returns (h: Headers)
    ensures fresh(HeaderObjs(h)) && HeaderValues(h) == HeaderValues(headers)
    ensures fresh(h) && forall k :: k in h.m ==> fresh(h.m[k])
  {
    h := new Headers();
    if headers == null {
      return;
    }
    var remaining := headers.m.Keys;
    while remaining != {}
      invariant remaining <= headers.m.Keys && h.m.Keys == headers.m.Keys - remaining
      invariant forall k :: k in h.m ==> fresh(h.m[k]) && h.m[k][..] == headers.m[k][..]
      decreases remaining
    {
      var k :| k in remaining;
      var tmp := CopyOfSlice(headers.m[k]);
      h.m := h.m[k := tmp];
      remaining := remaining - {k};
    }
    forall o | o in HeaderObjs(h)
      ensures fresh(o)
    {
    }
  }

  /** `CloneRequestParams`: a new map. */
  method CloneRequestParams(params: Params?) returns (p: Params)
    ensures fresh(p) && ParamValues(p) == ParamValues(params)
  {
    p := new Params();
    if params == null {
      return;
    }
    var remaining := params.m.Keys;
    while remaining != {}
      invariant remaining <= params.m.Keys && p.m.Keys == params.m.Keys - remaining
      invariant forall k :: k in p.m ==> p.m[k] == params.m[k]
      decreases remaining
    {
      var k :| k in remaining;
      p.m := p.m[k := params.m[k]];
      remaining := remaining - {k};
    }
  }

  method CopyOfBytes(data: array<byte>, len: nat) returns (copied: array<byte>)
    requires len <= data.Length
    ensures fresh(copied) && copied[..] == data[..len]
  {
    copied := new byte[len](_ => 0);
    for i := 0 to len
      invariant copied[..i] == data[..i]
    {
      copied[i] := data[i];
    }
  }

  ghost function BodyObjs(b: Body?): set<object> {
    if b == null then {} else {b, b.data}
  }

  /** Nothing of the request can be reached from the pool: in particular no body reads from a slice that
      a pooled buffer will write to. */
  ghost predicate Apart(r: Request, pool: Pool)
    reads r, r.Headers, pool
  {
    && r !in pool.repr && HeaderObjs(r.Headers) !! pool.repr && BodyObjs(r.Body) !! pool.repr
    && (r.Params != null ==> r.Params !in pool.repr)
  }

  /** Two bodies with copies of the buffer's bytes. */
  method TwoBodies(buf: Buffer) returns (original: Body, cloned: Body)
    requires buf.Valid()
    ensures fresh(BodyObjs(original)) && fresh(BodyObjs(cloned)) && BodyObjs(original) !! BodyObjs(cloned)
    ensures original.Rest() == cloned.Rest() == buf.store[..buf.len]
  {
    var originalBody := CopyOfBytes(buf.store, buf.len);
    var clonedBody := CopyOfBytes(buf.store, buf.len);
    original := new Body(originalBody);
    cloned := new Body(clonedBody);
  }

  /** The body, read to its end through a pooled buffer, as two new bodies. Neither is made of anything
      the pool can reach. */
  method SplitBody(body: Body, pool: Pool) returns (original: Body, cloned: Body)
    requires pool.Valid() && BodyObjs(body) !! pool.repr
    modifies body, pool.repr
    ensures pool.Valid() && old(pool.repr) <= pool.repr
      && (forall o :: o in pool.repr ==> o in old(pool.repr) || fresh(o))
    ensures fresh(BodyObjs(original)) && fresh(BodyObjs(cloned)) && BodyObjs(original) !! BodyObjs(cloned)
    ensures original.Rest() == old(body.Rest()) && cloned.Rest() == old(body.Rest())
    ensures BodyObjs(original) !! pool.repr && BodyObjs(cloned) !! pool.repr
  {
    var buf := pool.Get();
    buf.Reset();
    buf.ReadFrom(body);
    original, cloned := TwoBodies(buf);
    pool.Put(buf);
  }

  /** `Request.Clone`: everything but the URL is shared; that is printed and parsed again, which
      `reparse` stands for (null where parsing fails). */
  method Clone(r: Request, reparse: string -> Option<string>) returns (clone: Request)
    ensures fresh(clone) && clone.Method == r.Method && clone.Query == r.Query && clone.Path == r.Path
    ensures clone.Body == r.Body && clone.Params == r.Params && clone.Headers == r.Headers
    ensures clone.URL != null ==> fresh(clone.URL) && r.URL != null && reparse(r.URL.text) == Some(clone.URL.text)
    ensures clone.URL == null ==> r.URL == null || reparse(r.URL.text).None?
  {
    var url: Url? := null;
    if r.URL != null {
      var parsed := reparse(r.URL.text);
      if parsed.Some? {
        url := new Url(parsed.value);
      }
    }
    clone := new Request(r.Method, url, r.Query, r.Path, r.Body, r.Params, r.Headers);
  }

  /** Headers and parameters of a fresh clone, replaced by copies. */
  method OwnMaps(clone: Request)
    modifies clone
    ensures clone.Headers != null && fresh(HeaderObjs(clone.Headers)) && clone.Params != null && fresh(clone.Params)
    ensures clone.Method == old(clone.Method) && clone.Path == old(clone.Path) && clone.Query == old(clone.Query)
    ensures clone.URL == old(clone.URL) && clone.Body == old(clone.Body)
    ensures HeaderValues(clone.Headers) == old(HeaderValues(clone.Headers))
      && ParamValues(clone.Params) == old(ParamValues(clone.Params))
  {
    var headers := CloneRequestHeaders(clone.Headers);
    var params := CloneRequestParams(clone.Params);
    clone.Headers, clone.Params := headers, params;
  }

  /** A clone with its own headers and parameters, that still has the body of the original. */
  method CloneMaps(r: Request, reparse: string -> Option<string>) returns (clone: Request)
    ensures fresh(clone) && fresh(HeaderObjs(clone.Headers)) && clone.Headers != null && clone.Params != null
      && fresh(clone.Params)
    ensures clone.Method == r.Method && clone.Path == r.Path && clone.Query == r.Query && clone.Body == r.Body
    ensures clone.URL != null ==> fresh(clone.URL) && r.URL != null && reparse(r.URL.text) == Some(clone.URL.text)
    ensures HeaderValues(clone.Headers) == HeaderValues(r.Headers) && ParamValues(clone.Params) == ParamValues(r.Params)
  {
    clone := Clone(r, reparse);
    OwnMaps(clone);
  }

  /** Headers, parameters and everything else but the body are as they were. */
  twostate predicate OnlyBodyChanged(r: Request)
    reads r, r.Headers, if r.Headers == null then {} else r.Headers.m.Values, r.Params
  {
    && r.Method == old(r.Method) && r.Path == old(r.Path) && r.Query == old(r.Query) && r.URL == old(r.URL)
    && r.Headers == old(r.Headers) && r.Params == old(r.Params)
    && HeaderValues(r.Headers) == old(HeaderValues(r.Headers)) && ParamValues(r.Params) == old(ParamValues(r.Params))
  }

  /** The request gets a body of its own bytes again, and the clone is to get another. */
  method RenewBody(r: Request, pool: Pool) returns (cloned: Body)
    requires r.Body != null && pool.Valid() && Apart(r, pool)
    modifies r, r.Body, pool.repr
    ensures pool.Valid() && old(pool.repr) <= pool.repr
      && (forall o :: o in pool.repr ==> o in old(pool.repr) || fresh(o))
    ensures OnlyBodyChanged(r) && r.Body != null
    ensures fresh(BodyObjs(cloned)) && fresh(BodyObjs(r.Body)) && BodyObjs(cloned) !! BodyObjs(r.Body)
    ensures cloned.Rest() == r.Body.Rest() == old(r.Body.Rest())
    ensures BodyObjs(r.Body) !! pool.repr && BodyObjs(cloned) !! pool.repr
  {
    ghost var values := HeaderValues(r.Headers);
    var original;
    original, cloned := SplitBody(r.Body, pool);
    assert HeaderValues(r.Headers) == values;
    r.Body := original;
  }

  method RenewBodies(r: Request, clone: Request, pool: Pool)
    requires r.Body != null && pool.Valid() && Apart(r, pool) && r != clone
    requires clone !in pool.repr && HeaderObjs(clone.Headers) !! pool.repr && clone.Params !in pool.repr
    modifies r, clone, r.Body, pool.repr
    ensures pool.Valid() && old(pool.repr) <= pool.repr
      && (forall o :: o in pool.repr ==> o in old(pool.repr) || fresh(o))
    ensures OnlyBodyChanged(r) && OnlyBodyChanged(clone) && r.Body != null && clone.Body != null
    ensures fresh(BodyObjs(clone.Body)) && fresh(BodyObjs(r.Body)) && BodyObjs(clone.Body) !! BodyObjs(r.Body)
    ensures clone.Body.Rest() == r.Body.Rest() == old(r.Body.Rest())
    ensures BodyObjs(r.Body) !! pool.repr && BodyObjs(clone.Body) !! pool.repr
  {
    ghost var values := HeaderValues(clone.Headers);
    var clonedBody := RenewBody(r, pool);
    assert HeaderValues(clone.Headers) == values;
    clone.Body := clonedBody;
  }

  /** `CloneRequest`: a copy with headers, parameters and body of its own, that shares only the query.
      The original gets a new body of the same bytes, as its own has been read to the end. */
  method CloneRequest(r: Request, pool: Pool, reparse: string -> Option<string>) returns (clone: Request)
    requires pool.Valid() && Apart(r, pool)
    modifies r, r.Body, pool.repr
    ensures pool.Valid() && old(pool.repr) <= pool.repr
      && (forall o :: o in pool.repr ==> o in old(pool.repr) || fresh(o))
    ensures Apart(r, pool) && Apart(clone, pool)
    ensures fresh(clone) && clone.Headers != null && fresh(HeaderObjs(clone.Headers)) && clone.Params != null
      && fresh(clone.Params)
    ensures fresh(BodyObjs(clone.Body)) && fresh(BodyObjs(r.Body)) && BodyObjs(clone.Body) !! BodyObjs(r.Body)
    ensures OnlyBodyChanged(r)
    ensures clone.Method == r.Method && clone.Path == r.Path && clone.Query == r.Query
    ensures clone.URL != null ==> fresh(clone.URL) && r.URL != null && reparse(r.URL.text) == Some(clone.URL.text)
    ensures HeaderValues(clone.Headers) == HeaderValues(r.Headers)
    ensures ParamValues(clone.Params) == ParamValues(r.Params)
    ensures BodyContent(clone.Body) == BodyContent(r.Body) == old(BodyContent(r.Body))
  {
    clone := CloneMaps(r, reparse);
    assert HeaderObjs(clone.Headers) !! pool.repr;
    if r.Body == null {
      return;
    }
    RenewBodies(r, clone, pool);
  }

  // ---------------------------------------------------------------- one request for each call

  /** The values of a request that cloning has to preserve. */
  datatype Value = Value(headers: map<string, seq<string>>, params: map<string, string>, content: Content)

  ghost function ValueOf(r: Request): Value
    reads r, r.Headers, (if r.Headers == null then {} else r.Headers.m.Values), r.Params
    reads r.Body, if r.Body == null then {} else {r.Body.data}
  {
    Value(HeaderValues(r.Headers), ParamValues(r.Params), BodyContent(r.Body))
  }

  /** Two requests have no header map, header slice, parameter map, body or body slice in common. */
  ghost predicate Unshared(a: Request, b: Request)
    reads a, b, a.Headers, b.Headers
  {
    && a != b && HeaderObjs(a.Headers) !! HeaderObjs(b.Headers) && BodyObjs(a.Body) !! BodyObjs(b.Body)
    && (a.Params != null ==> a.Params != b.Params)
  }

  /** What two such requests cannot do to each other: no write through a header map, a header slice, the
      parameters or a body of the one reaches the other. */
  lemma UnsharedMeans(a: Request, b: Request)
    requires Unshared(a, b)
    ensures a.Headers != null && b.Headers != null ==> a.Headers != b.Headers
    ensures a.Headers != null && b.Headers != null ==>
      forall k, l :: k in a.Headers.m && l in b.Headers.m ==> a.Headers.m[k] != b.Headers.m[l]
    ensures a.Params != null ==> a.Params != b.Params
    ensures a.Body != null && b.Body != null ==> a.Body != b.Body && a.Body.data != b.Body.data
  {
    if a.Headers != null && b.Headers != null {
      forall k, l | k in a.Headers.m && l in b.Headers.m
        ensures a.Headers.m[k] != b.Headers.m[l]
      {
        assert a.Headers.m[k] in HeaderObjs(a.Headers) && b.Headers.m[l] in HeaderObjs(b.Headers);
      }
    }
  }

  ghost predicate AllUnshared(reqs: seq<Request>)
    reads reqs, set q | q in reqs && q.Headers != null :: q.Headers
  {
    forall j, k :: 0 <= j < k < |reqs| ==> Unshared(reqs[j], reqs[k])
  }

  lemma OneMoreUnshared(reqs: seq<Request>, q: Request)
    requires AllUnshared(reqs) && forall k :: 0 <= k < |reqs| ==> Unshared(reqs[k], q)
    ensures AllUnshared(reqs + [q])
  {
  }

  /** Nothing of the request was written. */
  twostate predicate Untouched(q: Request)
    reads q, q.Headers, if q.Headers == null then {} else q.Headers.m.Values, q.Params
    reads q.Body, if q.Body == null then {} else {q.Body.data}
  {
    unchanged(q) && HeaderObjs(q.Headers) == old(HeaderObjs(q.Headers)) && ValueOf(q) == old(ValueOf(q))
  }

  /** The request has the header and parameter objects it had. */
  twostate predicate KeepsMaps(r: Request)
    reads r, r.Headers
  {
    r.Params == old(r.Params) && HeaderObjs(r.Headers) == old(HeaderObjs(r.Headers))
  }

  /** One more clone: the requests made before are not written. */
  method CloneLeaving(reqs: seq<Request>, r: Request, pool: Pool, reparse: string -> Option<string>)
      returns (clone: Request)
    requires pool.Valid() && Apart(r, pool)
    requires forall k :: 0 <= k < |reqs| ==> Apart(reqs[k], pool) && Unshared(reqs[k], r)
    modifies r, r.Body, pool.repr
    ensures pool.Valid() && (forall o :: o in pool.repr ==> o in old(pool.repr) || fresh(o))
    ensures Apart(r, pool) && Apart(clone, pool) && Unshared(clone, r)
    ensures ValueOf(clone) == ValueOf(r) == old(ValueOf(r)) && fresh(BodyObjs(r.Body)) && KeepsMaps(r)
    ensures fresh(clone) && fresh(HeaderObjs(clone.Headers)) && fresh(BodyObjs(clone.Body))
    ensures clone.Params != null && fresh(clone.Params)
    ensures forall k :: 0 <= k < |reqs| ==> Untouched(reqs[k])
  {
    clone := CloneRequest(r, pool, reparse);
    assert clone != r;
  }

  /** And still share nothing with it or the original. */
  method CloneBeside(reqs: seq<Request>, r: Request, pool: Pool, reparse: string -> Option<string>)
      returns (clone: Request)
    requires pool.Valid() && Apart(r, pool)
    requires forall k :: 0 <= k < |reqs| ==> Apart(reqs[k], pool) && Unshared(reqs[k], r)
    modifies r, r.Body, pool.repr
    ensures pool.Valid() && (forall o :: o in pool.repr ==> o in old(pool.repr) || fresh(o))
    ensures Apart(r, pool) && Apart(clone, pool) && Unshared(clone, r)
    ensures ValueOf(clone) == ValueOf(r) == old(ValueOf(r)) && fresh(BodyObjs(r.Body))
    ensures forall k :: 0 <= k < |reqs| ==> ValueOf(reqs[k]) == old(ValueOf(reqs[k]))
    ensures forall k :: 0 <= k < |reqs| ==> Apart(reqs[k], pool) && Unshared(reqs[k], r) && Unshared(reqs[k], clone)
    ensures clone !in reqs && clone != r
  {
    clone := CloneLeaving(reqs, r, pool, reparse);
    forall k | 0 <= k < |reqs|
      ensures ValueOf(reqs[k]) == old(ValueOf(reqs[k])) && Apart(reqs[k], pool) && Unshared(reqs[k], r)
        && Unshared(reqs[k], clone)
    {
      assert Untouched(reqs[k]) && old(Apart(reqs[k], pool)) && old(Unshared(reqs[k], r));
    }
  }

  /** The same, next to requests that share nothing among themselves. */
  method CloneAnother(reqs: seq<Request>, r: Request, pool: Pool, reparse: string -> Option<string>)
      returns (clone: Request)
    requires pool.Valid() && Apart(r, pool) && AllUnshared(reqs)
    requires forall k :: 0 <= k < |reqs| ==> Apart(reqs[k], pool) && Unshared(reqs[k], r)
    modifies r, r.Body, pool.repr
    ensures pool.Valid() && (forall o :: o in pool.repr ==> o in old(pool.repr) || fresh(o))
    ensures Apart(r, pool) && Apart(clone, pool) && Unshared(clone, r)
    ensures ValueOf(clone) == ValueOf(r) == old(ValueOf(r)) && fresh(BodyObjs(r.Body))
    ensures forall k :: 0 <= k < |reqs| ==> ValueOf(reqs[k]) == old(ValueOf(reqs[k]))
    ensures forall k :: 0 <= k < |reqs| ==> Apart(reqs[k], pool) && Unshared(reqs[k], r)
    ensures AllUnshared(reqs + [clone]) && clone !in reqs && clone != r
  {
    clone := CloneBeside(reqs, r, pool, reparse);
    assert AllUnshared(reqs);
    OneMoreUnshared(reqs, clone);
  }

  /** The requests for n concurrent calls: n - 1 clones, and the original for the last. */
  method FanOut(n: nat, r: Request, pool: Pool, reparse: string -> Option<string>) returns (reqs: seq<Request>)
    requires pool.Valid() && Apart(r, pool)
    modifies r, r.Body, pool.repr
    ensures |reqs| == n && (n > 0 ==> reqs[n - 1] == r) && pool.Valid()
    ensures forall i :: 0 <= i < n ==> ValueOf(reqs[i]) == old(ValueOf(r)) && Apart(reqs[i], pool)
    ensures forall i, j :: 0 <= i < j < n ==> Unshared(reqs[i], reqs[j])
  {
    reqs := [];
    ghost var v := ValueOf(r);
    for i := 0 to n
      invariant |reqs| == i && pool.Valid() && (forall o :: o in pool.repr ==> o in old(pool.repr) || fresh(o))
        && (if i < n then r !in reqs else i > 0 ==> reqs[i - 1] == r)
      invariant r.Body == old(r.Body) || fresh(BodyObjs(r.Body))
      invariant ValueOf(r) == v && Apart(r, pool)
      invariant forall k :: 0 <= k < i ==> ValueOf(reqs[k]) == v && Apart(reqs[k], pool)
      invariant i < n ==> forall k :: 0 <= k < i ==> Unshared(reqs[k], r)
      invariant AllUnshared(reqs)
    {
      if i < n - 1 {
        var clone := CloneAnother(reqs, r, pool, reparse);
        reqs := reqs + [clone];
      } else {
        OneMoreUnshared(reqs, r);
        reqs := reqs + [r];
      }
    }
  }
}
