/** What one run of `sequentialMerge` (proxy/merging.go) does to responses and their maps: `parts`,
    the accumulator, and the objects that backends hand over. The class changes them as the source
    does; a view of them as values, and lemmas about it, say what that amounts to. */
module SequentialLedger {
  import opened Options
  import opened JsonTree
  import opened Merging
  import opened SequentialRun

  // ---------------------------------------------------------------- backends and what they send

  /** What a backend does if it is called: its return values, whether a context that is done wins the
      select, and what it does to the request parameters it may share with the loop. */
  datatype Ret = Errs(err: Error) | NilRet | Gives(response: Response)
  datatype Backend = Backend(ret: Ret, contextWins: bool, touch: Params -> Params)

  ghost predicate HasReader(b: Backend) {
    b.ret.Gives? && b.ret.response.Io != null
  }

  /** What the loop receives, and what a backend sends. */
  datatype Got = GotError(err: Error) | GotResponse(response: Response)

  function Sent(b: Backend): Got {
    match b.ret
    case Errs(err) => GotError(err)
    case NilRet => GotError(ErrNullResult)
    case Gives(response) => if b.contextWins then GotError(ContextDone) else GotResponse(response)
  }

  /** The errors a call can end with: the backend's own, one for a nil response, or that of a context that
      was done before the response got through. */
  predicate FailsWith(b: Backend, e: Error) {
    || b.ret == Errs(e)
    || (b.ret.NilRet? && e == ErrNullResult)
    || (b.ret.Gives? && b.contextWins && e == ContextDone)
  }

  lemma SentFails(b: Backend, e: Error)
    ensures Sent(b) == GotError(e) <==> FailsWith(b, e)
  {
  }

  function SlotOf(b: Backend): DataMap? {
    if b.ret.Gives? then b.ret.response.Data else null
  }

  function SlotsOf(next: seq<Backend>): (slots: seq<DataMap?>)
    ensures |slots| == |next| && forall k :: 0 <= k < |slots| ==> slots[k] == SlotOf(next[k])
  {
    seq(|next|, k requires 0 <= k < |next| => SlotOf(next[k]))
  }

  /** The responses that the backends deliver share no data map. */
  ghost predicate UnsharedBackends(next: seq<Backend>) {
    DistinctSlots(SlotsOf(next))
  }

  ghost predicate DistinctSlots(slots: seq<DataMap?>) {
    forall j, k :: 0 <= j < k < |slots| && slots[j] != null ==> slots[j] != slots[k]
  }

  // ---------------------------------------------------------------- the view

  type Contents = map<DataMap, Fields>
  type Flags = map<Response, bool>

  /** The accumulator's response: none yet, or one over the given map. */
  datatype Pointer = NoResponse | Over(d: DataMap?)

  /** Everything the loop holds, as values. `slots` lists the map objects of all backends: of those done,
      their parts' maps; of the others, the maps of the responses they would deliver. */
  datatype View = View(
    acc: Acc, pointer: Pointer, contents: Contents, flags: Flags, parts: seq<Response?>, slots: seq<DataMap?>,
    events: seq<Event>)

  function FieldsIn(contents: Contents, d: DataMap?): Fields {
    if d != null && d in contents then contents[d] else map[]
  }

  function DataIn(v: View, j: nat): Fields {
    if j < |v.slots| then FieldsIn(v.contents, v.slots[j]) else map[]
  }

  function ValueIn(v: View, r: Response): Resp {
    Resp(if r.Data == null then None else Some(FieldsIn(v.contents, r.Data)), r in v.flags && v.flags[r])
  }

  /** What each backend's response was before the run. */
  datatype Orders = Orders(next: seq<Backend>, given: seq<Resp>, unshared: bool)

  ghost predicate GivenFits(o: Orders) {
    && |o.given| == |o.next| && (o.unshared ==> UnsharedBackends(o.next))
    && forall k :: 0 <= k < |o.next| && o.next[k].ret.Gives? ==> (o.given[k].data.None? <==> SlotOf(o.next[k]) == null)
  }

  // ---------------------------------------------------------------- what a view has to satisfy

  /** The part of a backend that is done: the response it gave, or a stand-in if it was left out. */
  ghost predicate PartOk(o: Orders, v: View, j: nat)
    requires j < |v.events| <= |v.parts| && |v.parts| == |v.slots| == |o.next|
  {
    && v.parts[j] != null && v.parts[j].Data == v.slots[j]
    && (v.events[j].Called? ==> o.next[j].ret.Gives? && v.parts[j] == o.next[j].ret.response)
    && (v.events[j].LeftOut? ==> v.parts[j].Io == null)
  }

  /** A backend whose turn is still to come: its response is as it was given. */
  ghost predicate PendingOk(o: Orders, v: View, k: nat)
    requires k < |v.parts| == |v.slots| == |o.next| && GivenFits(o)
  {
    && v.parts[k] == null && v.slots[k] == SlotOf(o.next[k])
    && (o.next[k].ret.Gives? ==>
          && o.next[k].ret.response in v.flags && v.flags[o.next[k].ret.response] == o.given[k].complete
          && (v.slots[k] != null ==> v.slots[k] in v.contents)
          && (o.unshared && v.slots[k] != null ==> v.contents[v.slots[k]] == o.given[k].data.value))
  }

  /** With unshared responses: the map of a backend that is done holds what `DataAfter` says. */
  ghost predicate SlotOk(v: View, j: nat)
    requires j < |v.events| <= |v.slots|
  {
    && (v.slots[j] == null <==> OwnData(v.events[j]).None?)
    && (v.slots[j] != null ==> v.slots[j] in v.contents)
    && FieldsIn(v.contents, v.slots[j]) == DataAfter(v.events, j)
  }

  /** And the accumulator's map is the one `OwnerAfter` says. */
  ghost predicate PointerOk(v: View)
    requires |v.events| <= |v.slots|
  {
    match OwnerAfter(v.events)
    case NoMap(merged) => if merged == 0 then v.pointer == NoResponse else v.pointer == Over(null)
    case MapOf(j) => j < |v.events| && v.pointer.Over? && v.pointer.d != null && v.pointer.d == v.slots[j]
    case OwnMap => v.pointer.Over? && v.pointer.d != null && forall k :: 0 <= k < |v.slots| ==>
      v.slots[k] != v.pointer.d
  }

  ghost predicate Accounted(v: View) {
    && |v.events| <= |v.slots| && DistinctSlots(v.slots) && PointerOk(v)
    && forall j :: 0 <= j < |v.events| ==> SlotOk(v, j)
  }

  /** The accumulator is what the events make of it. */
  predicate Settled(v: View) {
    v.acc == AccAfter(|v.parts|, v.events)
  }

  ghost predicate Shaped(o: Orders, v: View) {
    && GivenFits(o) && |v.events| <= |v.parts| == |v.slots| == |o.next|
    && (v.pointer.Over? && v.pointer.d != null ==> v.pointer.d in v.contents)
  }

  /** What holds before every turn. */
  ghost predicate Balanced(o: Orders, v: View) {
    && Shaped(o, v) && Settled(v)
    && (forall j :: 0 <= j < |v.events| ==> PartOk(o, v, j))
    && (forall k :: |v.events| <= k < |v.parts| ==> PendingOk(o, v, k))
    && (o.unshared ==> Accounted(v))
  }

  // ---------------------------------------------------------------- a backend is left out

  function LeftOutView(v: View, e: Event, r: Response, d: DataMap): View
    requires |v.events| < |v.parts| == |v.slots|
  {
    View(v.acc.(pending := v.acc.pending - 1), v.pointer, v.contents[d := map[]], v.flags[r := true],
         v.parts[|v.events| := r], v.slots[|v.events| := d], v.events + [e])
  }

  ghost predicate NewObjects(v: View, r: Response, d: DataMap) {
    d !in v.contents && d !in v.slots && r !in v.flags && r.Data == d && r.Io == null
  }

  lemma LeftOutAccounted(v: View, e: Event, r: Response, d: DataMap)
    requires |v.events| < |v.parts| == |v.slots| && Accounted(v) && e.LeftOut? && NewObjects(v, r, d)
    requires v.pointer.Over? && v.pointer.d != null ==> v.pointer.d in v.contents
    ensures Accounted(LeftOutView(v, e, r, d))
  {
    var v' := LeftOutView(v, e, r, d);
    OwnerAfterSnoc(v.events, e);
    forall j | 0 <= j < |v'.events|
      ensures SlotOk(v', j)
    {
      DataAfterSnoc(v.events, e, j);
      assert j < |v.events| ==> SlotOk(v, j);
    }
  }

  lemma LeftOutBalanced(o: Orders, v: View, e: Event, r: Response, d: DataMap)
    requires Balanced(o, v) && |v.events| < |v.parts| && e.LeftOut? && NewObjects(v, r, d)
    ensures Balanced(o, LeftOutView(v, e, r, d))
  {
    var v' := LeftOutView(v, e, r, d);
    EventMerges(|v.parts|, v.events, e);
    forall j | 0 <= j < |v'.events|
      ensures PartOk(o, v', j)
    {
      assert j < |v.events| ==> PartOk(o, v, j);
    }
    forall k | |v'.events| <= k < |v'.parts|
      ensures PendingOk(o, v', k)
    {
      assert PendingOk(o, v, k);
    }
    if o.unshared {
      LeftOutAccounted(v, e, r, d);
    }
  }

  // ---------------------------------------------------------------- a response is merged

  /** The map the accumulator has after a reply with the given map; `own` is one it would make itself. */
  function PointerAfter(p: Pointer, slot: DataMap?, own: DataMap?): Pointer {
    match p
    case NoResponse => Over(slot)
    case Over(d) => if d != null then p else if slot != null then Over(slot) else Over(own)
  }

  /** The contents after a reply: the accumulator's map, if it had one, has taken the fields in. */
  function ContentsAfter(h: Contents, p: Pointer, slot: DataMap?, own: DataMap?): Contents {
    match p
    case NoResponse => h
    case Over(d) =>
      if d != null && d in h then h[d := h[d] + FieldsIn(h, slot)]
      else if slot == null && own != null then h[own := map[]]
      else h
  }

  function MergedView(v: View, e: Event, msg: Msg, slot: DataMap?, own: DataMap?, flags: Flags): View {
    View(MergeOne(v.acc, msg), PointerAfter(v.pointer, slot, own), ContentsAfter(v.contents, v.pointer, slot, own),
      flags,
         v.parts, v.slots, v.events + [e])
  }

  ghost predicate Extends(flags: Flags, flags': Flags) {
    forall r :: r in flags ==> r in flags' && flags'[r] == flags[r]
  }

  /** A map that the accumulator would have to make is new. */
  ghost predicate OwnIsNew(v: View, slot: DataMap?, own: DataMap?) {
    v.pointer == Over(null) && slot == null ==> own != null && own !in v.contents && own !in v.slots
  }

  ghost predicate FromBackend(o: Orders, v: View, e: Event, r: Response)
    requires |v.events| < |o.next|
  {
    o.next[|v.events|].ret == Gives(r) && e.Called? && e.msg == Reply(ValueIn(v, r))
  }

  lemma MergedAccounted(o: Orders, v: View, e: Event, r: Response, own: DataMap?, flags: Flags)
    requires Balanced(o, v) && o.unshared && |v.events| < |v.parts| && FromBackend(o, v, e, r)
      && OwnIsNew(v, r.Data, own)
    ensures Accounted(MergedView(v, e, e.msg, r.Data, own, flags))
  {
    var n, v' := |v.events|, MergedView(v, e, e.msg, r.Data, own, flags);
    OwnerAfterSnoc(v.events, e);
    assert PendingOk(o, v, n);
    forall j | 0 <= j < |v'.events|
      ensures SlotOk(v', j)
    {
      DataAfterSnoc(v.events, e, j);
      if j < n {
        assert SlotOk(v, j);
        assert v.slots[j] != null ==> v.slots[j] != v.slots[n];
      } else {
        assert v.pointer.Over? && v.pointer.d != null ==> v.pointer.d != v.slots[n];
      }
    }
  }

  lemma PendingStays(o: Orders, v: View, e: Event, r: Response, own: DataMap?, flags: Flags, k: nat)
    requires Balanced(o, v) && |v.events| < k < |v.parts| && e.Called? && OwnIsNew(v, r.Data, own)
      && Extends(v.flags, flags)
    ensures PendingOk(o, MergedView(v, e, e.msg, r.Data, own, flags), k)
  {
    assert PendingOk(o, v, k);
    if o.unshared && v.slots[k] != null && v.pointer.Over? {
      assert v.pointer.d != v.slots[k];
    }
  }

  /** The merge of a complete response of the backend whose turn it is, which becomes its part. */
  lemma MergedBalanced(o: Orders, v: View, e: Event, r: Response, own: DataMap?, flags: Flags)
    requires Balanced(o, v) && |v.events| < |v.parts| && FromBackend(o, v, e, r)
    requires OwnIsNew(v, r.Data, own) && Extends(v.flags, flags)
    ensures var v' := MergedView(v, e, e.msg, r.Data, own, flags); Balanced(o, v'.(parts := v.parts[|v.events| := r]))
  {
    var n := |v.events|;
    var v' := MergedView(v, e, e.msg, r.Data, own, flags);
    var v'' := v'.(parts := v.parts[n := r]);
    EventMerges(|v.parts|, v.events, e);
    assert PendingOk(o, v, n);
    forall j | 0 <= j < |v''.events|
      ensures PartOk(o, v'', j)
    {
      assert j < n ==> PartOk(o, v, j);
    }
    forall k | |v''.events| <= k < |v''.parts|
      ensures PendingOk(o, v'', k)
    {
      PendingStays(o, v, e, r, own, flags, k);
    }
    if o.unshared {
      MergedAccounted(o, v, e, r, own, flags);
      assert Accounted(v');
      forall j | 0 <= j < |v''.events|
        ensures SlotOk(v'', j)
      {
        assert SlotOk(v', j);
      }
    }
  }

  // ---------------------------------------------------------------- the objects

  function NoParts(n: nat): (parts: seq<Response?>)
    ensures |parts| == n && forall j :: 0 <= j < n ==> parts[j] == null
  {
    if n == 0 then [] else NoParts(n - 1) + [null]
  }

  ghost function Values(next: seq<Backend>): (given: seq<Resp>)
    reads set k | 0 <= k < |next| && next[k].ret.Gives? :: next[k].ret.response
    reads set k | 0 <= k < |next| && next[k].ret.Gives? && next[k].ret.response.Data != null ::
      next[k].ret.response.Data
    ensures |given| == |next|
    ensures forall k :: 0 <= k < |next| && next[k].ret.Gives? ==> given[k] == next[k].ret.response.Value()
  {
    if next == [] then []
    else
      var last := next[|next| - 1];
      Values(next[..|next| - 1]) + [if last.ret.Gives? then last.ret.response.Value() else Resp(None, false)]
  }

  ghost function ContentsOf(maps: set<DataMap>): Contents
    reads maps
  {
    map d | d in maps :: d.m
  }

  ghost function FlagsOf(responses: set<Response>): Flags
    reads responses
  {
    map r | r in responses :: r.IsComplete
  }

  /** The responses that the backends hand over, and their data maps. */
  ghost function ResponsesOf(next: seq<Backend>): (responses: set<Response>)
    ensures forall k :: 0 <= k < |next| && next[k].ret.Gives? ==> next[k].ret.response in responses
  {
    set k | 0 <= k < |next| && next[k].ret.Gives? :: next[k].ret.response
  }

  ghost function MapsOf(next: seq<Backend>): (maps: set<DataMap>)
    ensures forall k :: 0 <= k < |next| && next[k].ret.Gives? && next[k].ret.response.Data != null ==>
      next[k].ret.response.Data in maps
  {
    set k | 0 <= k < |next| && next[k].ret.Gives? && next[k].ret.response.Data != null :: next[k].ret.response.Data
  }

  /** The accumulator and the parts. `responses` and `maps` hold every response and every data map of the
      run, also those still to come. */
  class Ledger {
    const acc: IncrementalMergeAccumulator
    var parts: seq<Response?>
    ghost var responses: set<Response>
    ghost var maps: set<DataMap>
    ghost var slots: seq<DataMap?>
    ghost var events: seq<Event>

    ghost predicate Valid()
      reads this, acc
    {
      && (acc.data != null ==> acc.data in responses)
      && (forall r :: r in responses && r.Data != null ==> r.Data in maps)
      && (forall k :: 0 <= k < |slots| && slots[k] != null ==> slots[k] in maps)
    }

    ghost function Pointed(): Pointer
      reads acc
    {
      if acc.data == null then NoResponse else Over(acc.data.Data)
    }

    ghost function Now(): View
      reads this, acc, responses, maps, acc.data, if acc.data == null then null else acc.data.Data
    {
      View(acc.Value(), Pointed(), ContentsOf(maps), FlagsOf(responses), parts, slots, events)
    }

    /** The state before the first turn. */
    ghost predicate Starts(next: seq<Backend>)
      reads this, acc
    {
      && Valid() && responses == ResponsesOf(next) && maps == MapsOf(next)
      && events == [] && parts == NoParts(|next|) && slots == SlotsOf(next)
      && acc.data == null && acc.Value() == Start(|next|)
    }

    constructor (next: seq<Backend>)
      ensures Starts(next) && fresh(acc)
    {
      parts, slots, events := NoParts(|next|), SlotsOf(next), [];
      acc := new IncrementalMergeAccumulator(|next|);
      responses, maps := ResponsesOf(next), MapsOf(next);
    }

    /** The start of a run, on responses as they were given. */
    lemma StartBalanced(o: Orders)
      requires Starts(o.next)
      requires o.given == Values(o.next) && o.unshared == UnsharedBackends(o.next)
      ensures Balanced(o, Now())
    {
      var v := Now();
      forall k | 0 <= k < |v.parts|
        ensures PendingOk(o, v, k)
      {
      }
    }

    ghost method RecordStandIn(i: nat, r: Response, d: DataMap, e: Event)
      requires Valid() && i < |slots| && r.Data == d
      modifies this
      ensures Valid() && parts == old(parts) && slots == old(slots)[i := d] && events == old(events) + [e]
      ensures responses == old(responses) + {r} && maps == old(maps) + {d}
    {
      responses, maps := responses + {r}, maps + {d};
      slots, events := slots[i := d], events + [e];
    }

    /** An empty complete response stands in for backend i, and one less is pending. */
    method LeaveOut(i: nat, ghost e: Event) returns (ghost r: Response, ghost d: DataMap)
      requires Valid() && i == |events| < |parts| == |slots|
      modifies this, acc
      ensures Valid() && fresh(r) && fresh(d) && responses == old(responses) + {r} && maps == old(maps) + {d}
      ensures Now() == LeftOutView(old(Now()), e, r, d) && r.Data == d && r.Io == null
    {
      ghost var contents, flags := ContentsOf(maps), FlagsOf(responses);
      var data := new DataMap(map[]);
      var placeholder := new Response(data, true);
      parts := parts[i := placeholder];
      acc.pending := acc.pending - 1;
      r, d := placeholder, data;
      RecordStandIn(i, r, d, e);
      assert ContentsOf(maps) == contents[d := map[]];
      assert FlagsOf(responses) == flags[r := true];
    }

    /** `acc.Merge(nil, err)`. */
    method MergeError(err: Error, ghost e: Event)
      requires Valid()
      modifies this, acc, responses, maps
      ensures Valid() && parts == old(parts) && responses == old(responses) && maps == old(maps)
      ensures events == old(events) + [e]
      ensures acc.Value() == MergeOne(old(acc.Value()), Failure(err))
    {
      acc.Merge(null, Some(err));
      events := events + [e];
    }

    /** `acc.Merge(response, nil)`: flags stay, and one map at most is written. */
    method Absorb(response: Response)
      requires Valid() && response in responses
      modifies acc, responses, maps
      ensures acc.Value() == MergeOne(old(acc.Value()), Reply(old(response.Value()))) && acc.data != null
      ensures acc.data == response || fresh(acc.data)
      ensures Pointed() == PointerAfter(old(Pointed()), response.Data, acc.data.Data)
      ensures old(Pointed()) == Over(null) && response.Data == null ==>
        acc.data.Data != null && fresh(acc.data.Data) && acc.data.Data.m == map[]
      ensures forall r :: r in responses ==> r.IsComplete == old(r.IsComplete)
      ensures forall d :: d in maps ==>
        d.m == if old(Pointed()) == Over(d) && response.Data != null then old(d.m) + old(response.Data.m) else old(d.m)
    {
      acc.Merge(response, None);
    }

    /** What is recorded of it. */
    ghost method RecordMerge(e: Event)
      requires acc.data != null && (acc.data.Data != null ==> (acc.data in responses ==> acc.data.Data in maps))
      requires forall r :: r in responses && r.Data != null ==> r.Data in maps
      requires forall k :: 0 <= k < |slots| && slots[k] != null ==> slots[k] in maps
      modifies this
      ensures Valid() && parts == old(parts) && slots == old(slots) && events == old(events) + [e]
      ensures responses == old(responses) + {acc.data}
      ensures maps == old(maps) + if acc.data.Data == null then {} else {acc.data.Data}
    {
      responses, maps := responses + {acc.data}, maps + if acc.data.Data == null then {} else {acc.data.Data};
      events := events + [e];
    }

    /** The same, recorded; `own` is the map the result is over. */
    method MergeReply(response: Response, ghost e: Event) returns (ghost own: DataMap?)
      requires Valid() && response in responses
      modifies this, acc, responses, maps
      ensures Valid() && acc.data != null && responses == old(responses) + {acc.data}
        && (acc.data in old(responses) || fresh(acc.data))
      ensures maps == old(maps) + (if own == null then {} else {own}) && (own == null || own in old(maps) || fresh(own))
      ensures Now() == MergedView(old(Now()), e, Reply(old(response.Value())), response.Data, own, FlagsOf(responses))
      ensures Extends(old(FlagsOf(responses)), FlagsOf(responses)) && OwnIsNew(old(Now()), response.Data, own)
    {
      ghost var contents, p := ContentsOf(maps), Pointed();
      Absorb(response);
      own := acc.data.Data;
      MergedContents(contents, p, response.Data, own);
      RecordMerge(e);
      assert ContentsOf(maps) == ContentsAfter(contents, p, response.Data, own);
    }

    /** The contents of the maps before, and of the one that is added, make up the contents after. */
    lemma MergedContents(contents: Contents, p: Pointer, slot: DataMap?, own: DataMap?)
      requires contents.Keys == maps && (slot != null ==> slot in maps)
      requires p.Over? && p.d != null ==> p.d in maps
      requires p == Over(null) && slot == null ==> own != null && own.m == map[]
      requires Over(own) == PointerAfter(p, slot, own)
      requires forall d :: d in maps ==>
        d.m == if p == Over(d) && slot != null then contents[d] + contents[slot] else contents[d]
      ensures ContentsOf(maps + if own == null then {} else {own}) == ContentsAfter(contents, p, slot, own)
    {
      var h, h' := ContentsAfter(contents, p, slot, own), ContentsOf(maps + if own == null then {} else {own});
      assert h.Keys == h'.Keys;
      forall d | d in h
        ensures h[d] == h'[d]
      {
        assert p == Over(d) && slot == null ==> contents[d] + map[] == contents[d];
      }
    }

    method KeepPart(i: nat, response: Response)
      requires Valid() && i < |parts|
      modifies this
      ensures Valid() && responses == old(responses) && maps == old(maps)
      ensures Now() == old(Now()).(parts := old(parts)[i := response])
    {
      ghost var contents, flags := ContentsOf(maps), FlagsOf(responses);
      parts := parts[i := response];
      assert ContentsOf(maps) == contents && FlagsOf(responses) == flags;
    }
  }
}
