/** What the sequential merger's run amounts to (proxy/merging.go): what each replacement does to the
    parameters and the registry, the log that a run keeps, and what that log tells. */
module SequentialLog {
  import opened Options
  import opened JsonTree
  import opened Merging
  import opened SequentialRun
  import opened SequentialLedger

  /** A value that was copied into a parameter and the registry, at the turn of backend `at`. */
  datatype Capture = Capture(at: nat, r: Replacement, value: string)

  datatype Effect = Nothing | Keeps(found: string) | Takes(value: string)

  predicate Found(registry: Params, destination: string) {
    destination in registry && registry[destination] != ""
  }

  /** What one replacement does at turn i, given the data and the readable body of its part. */
  function EffectOf(
    r: Replacement, i: nat, registry: Params, data: Fields, body: Option<string>, show: Show): Effect
    requires r.source != []
  {
    if r.backendIndex >= i then Nothing
    else if Found(registry, r.destination) then Keeps(registry[r.destination])
    else if r.fullResponse then (if body.Some? then Takes(body.value) else Nothing)
    else
      var v := Lookup(data, r.source);
      if v.Some? then Takes(Rendered(v.value, show)) else Nothing
  }

  function LastOf(deepest: Fields, source: Path, show: Show): Option<string>
    requires source != []
  {
    var last := source[|source| - 1];
    if last in deepest then Some(Rendered(deepest[last], show)) else None
  }

  function ParamsAfter(params: Params, destination: string, e: Effect): Params {
    match e
    case Nothing => params
    case Keeps(found) => params[destination := found]
    case Takes(value) => params[destination := value]
  }

  function RegistryAfter(registry: Params, destination: string, e: Effect): Params {
    if e.Takes? then registry[destination := e.value] else registry
  }

  /** Every value taken at this turn is the rendering of what the lookup finds. */
  ghost predicate Genuine(c: Capture, data: Fields, show: Show) {
    c.r.source != [] &&
    (!c.r.fullResponse ==>
       Lookup(data, c.r.source).Some? && c.value == Rendered(Lookup(data, c.r.source).value, show))
  }

  predicate Gave(c: Capture, d: string, value: string, upTo: nat) {
    c.at <= upTo && c.r.destination == d && c.value == value
  }

  /** Everything in the registry was captured, at one of the turns up to the given one. */
  ghost predicate Sourced(registry: Params, captures: seq<Capture>, upTo: nat) {
    forall d {:trigger HasSource(registry, captures, upTo, d)} :: d in registry ==>
      HasSource(registry, captures, upTo, d)
  }

  ghost predicate HasSource(registry: Params, captures: seq<Capture>, upTo: nat, d: string)
    requires d in registry
  {
    exists k :: 0 <= k < |captures| && Gave(captures[k], d, registry[d], upTo)
  }

  /** The registry is what the captures made it, up to turn i: what is found is never captured again. */
  ghost predicate Registered(registry: Params, captures: seq<Capture>, i: nat) {
    && Sourced(registry, captures, i)
    && (forall k :: 0 <= k < |captures| && captures[k].value != "" ==>
          captures[k].r.destination in registry && registry[captures[k].r.destination] == captures[k].value)
    && (forall k, l :: 0 <= k < l < |captures| && captures[k].r.destination == captures[l].r.destination ==>
       captures[k].value == "")
  }

  /** Values once found stay. */
  predicate Grows(before: Params, after: Params) {
    forall d :: d in before && before[d] != "" ==> d in after && after[d] == before[d]
  }

  lemma TakeRegisters(registry: Params, captures: seq<Capture>, i: nat, c: Capture)
    requires Registered(registry, captures, i) && !Found(registry, c.r.destination) && c.at <= i
    ensures Registered(registry[c.r.destination := c.value], captures + [c], i)
    ensures Grows(registry, registry[c.r.destination := c.value])
  {
    var registry', cs := registry[c.r.destination := c.value], captures + [c];
    forall d | d in registry'
      ensures HasSource(registry', cs, i, d)
    {
      if d == c.r.destination {
        assert cs[|captures|] == c;
      } else {
        assert HasSource(registry, captures, i, d);
        var k :| 0 <= k < |captures| && Gave(captures[k], d, registry[d], i);
        assert cs[k] == captures[k];
      }
    }
  }

  /** A listed destination with a found value has it in the parameters. */
  ghost predicate Supplied(params: Params, registry: Params, rs: seq<Replacement>, i: nat, upTo: nat) {
    forall k :: 0 <= k < upTo && k < |rs| && rs[k].backendIndex < i && Found(registry, rs[k].destination) ==>
      rs[k].destination in params && params[rs[k].destination] == registry[rs[k].destination]
  }

  /** The captures of one turn: at this turn, from parts of earlier turns, and genuine. */
  ghost predicate CapturedAt(i: nat, captures: seq<Capture>, rs: seq<Replacement>, data: seq<Fields>, show: Show) {
    forall k :: 0 <= k < |captures| ==>
      && captures[k].at == i && captures[k].r in rs && captures[k].r.backendIndex < i
         && captures[k].r.backendIndex < |data|
      && Genuine(captures[k], data[captures[k].r.backendIndex], show)
  }

  // ---------------------------------------------------------------- whole responses

  /** The body of backend j's response has been read by one of the captures. */
  ghost predicate Drained(captures: seq<Capture>, j: nat) {
    exists n :: 0 <= n < |captures| && captures[n].r.fullResponse && captures[n].r.backendIndex == j
  }

  /** The first capture of a whole response has the body that was delivered, later ones nothing. */
  ghost predicate WholeOk(captures: seq<Capture>, n: nat, bodies: seq<string>)
    requires n < |captures|
  {
    var r := captures[n].r;
    r.fullResponse ==>
      r.backendIndex < |bodies| && captures[n].value == if Drained(captures[..n], r.backendIndex) then ""
        else bodies[r.backendIndex]
  }

  ghost predicate WholesOk(captures: seq<Capture>, bodies: seq<string>) {
    forall n :: 0 <= n < |captures| ==> WholeOk(captures, n, bodies)
  }

  lemma DrainedSnoc(captures: seq<Capture>, c: Capture, j: nat)
    ensures Drained(captures + [c], j) <==> Drained(captures, j) || (c.r.fullResponse && c.r.backendIndex == j)
  {
    var cs := captures + [c];
    assert cs[|captures|] == c;
    if n :| 0 <= n < |captures| && captures[n].r.fullResponse && captures[n].r.backendIndex == j {
      assert cs[n] == captures[n];
    }
  }

  lemma WholesSnoc(captures: seq<Capture>, c: Capture, bodies: seq<string>)
    requires WholesOk(captures, bodies)
    requires c.r.fullResponse ==>
      c.r.backendIndex < |bodies|
        && c.value == if Drained(captures, c.r.backendIndex) then "" else bodies[c.r.backendIndex]
    ensures WholesOk(captures + [c], bodies)
  {
    var cs := captures + [c];
    forall n | 0 <= n < |cs|
      ensures WholeOk(cs, n, bodies)
    {
      if n < |captures| {
        assert cs[..n] == captures[..n] && WholeOk(captures, n, bodies);
      } else {
        assert cs[..n] == captures;
      }
    }
  }

  // ---------------------------------------------------------------- the log of a run

  type Filter = Params -> bool

  predicate Excluded(filters: seq<Option<Filter>>, i: nat, params: Params) {
    i < |filters| && filters[i].Some? && !filters[i].value(params)
  }

  /** The backends that were called, in the order of the events. */
  function CalledIndices(events: seq<Event>): seq<nat>
    decreases |events|
  {
    if events == [] then []
    else
      var n := |events| - 1;
      CalledIndices(events[..n]) + if events[n].Called? then [n] else []
  }

  /** Backends are called in index order, each at most once. */
  lemma {:induction false} CalledInOrder(events: seq<Event>)
    ensures forall k :: 0 <= k < |CalledIndices(events)| ==>
      CalledIndices(events)[k] < |events| && events[CalledIndices(events)[k]].Called?
    ensures forall k, l :: 0 <= k < l < |CalledIndices(events)| ==> CalledIndices(events)[k] < CalledIndices(events)[l]
    decreases |events|
  {
    if events != [] {
      var n := |events| - 1;
      CalledInOrder(events[..n]);
      var before, all := CalledIndices(events[..n]), CalledIndices(events);
      forall k | 0 <= k < |all|
        ensures all[k] < |events| && events[all[k]].Called?
      {
        if k < |before| {
          assert all[k] == before[k];
        }
      }
      assert forall k :: 0 <= k < |before| ==> all[k] == before[k] < n;
    }
  }

  /** The parameters and the registry an event saw. */
  function SeenParams(e: Event): Params {
    match e case Called(p, _, _) => p case LeftOut(p, _) => p
  }

  function SeenRegistry(e: Event): Params {
    match e case Called(_, r, _) => r case LeftOut(_, r) => r
  }

  /** What is fixed for a run: the backends, with what their responses were before it and whether no two
      of them share a data map, and the configuration. */
  datatype Setup = Setup(orders: Orders, filters: seq<Option<Filter>>, replacements: seq<seq<Replacement>>, show: Show)

  /** Event e, if it is a call, shows what this backend sent: its error, or its response with the flag as
      it was before the run, and with the data as they were if responses share none. */
  ghost predicate OwnMessage(e: Event, o: Orders, k: nat)
    requires k < |o.next| && GivenFits(o)
  {
    e.Called? ==>
      match Sent(o.next[k])
      case GotError(err) => e.msg == Failure(err)
      case GotResponse(_) =>
        && e.msg.Reply? && e.msg.resp.complete == o.given[k].complete
        && (e.msg.resp.data.None? <==> o.given[k].data.None?)
        && (o.unshared ==> e.msg.resp == o.given[k])
  }

  /** The message that what is received amounts to. */
  function MsgIn(v: View, got: Got): Msg {
    match got
    case GotError(err) => Failure(err)
    case GotResponse(response) => Reply(ValueIn(v, response))
  }

  /** No response is touched before its backend's turn. */
  lemma MessageIsOwn(o: Orders, v: View, e: Event)
    requires Balanced(o, v) && |v.events| < |v.parts| && e.Called? && e.msg == MsgIn(v, Sent(o.next[|v.events|]))
    ensures OwnMessage(e, o, |v.events|)
  {
    assert PendingOk(o, v, |v.events|);
  }

  /** The registry and the parameters agree about a destination. */
  predicate Settles(params: Params, registry: Params, d: string) {
    d in registry && d in params && params[d] == registry[d]
  }

  /** A replacement whose lookup finds a value has its destination in the registry and the parameters: with
      a value found before, or with that of the lookup. */
  ghost predicate Served(params: Params, registry: Params, r: Replacement, data: Fields, show: Show) {
    r.source != [] &&
    (!r.fullResponse && Lookup(data, r.source).Some? ==>
       && Settles(params, registry, r.destination)
       && (registry[r.destination] == "" ==> Rendered(Lookup(data, r.source).value, show) == ""))
  }

  ghost predicate AllServed(params: Params, registry: Params, rs: seq<Replacement>, i: nat, data: seq<Fields>,
      show: Show, upTo: nat)
    requires |data| == i
  {
    forall k :: 0 <= k < upTo && k < |rs| && rs[k].backendIndex < i ==>
      Served(params, registry, rs[k], data[rs[k].backendIndex], show)
  }

  /** Backend j was called, and its response has a body that can be read. */
  ghost predicate Readable(o: Orders, events: seq<Event>, j: nat)
    requires j < |events| <= |o.next|
  {
    events[j].Called? && HasReader(o.next[j]) && !o.next[j].ret.response.Io.fails
  }

  ghost function ReadableParts(o: Orders, events: seq<Event>): (readable: seq<bool>)
    requires |events| <= |o.next|
    ensures |readable| == |events| && forall j :: 0 <= j < |events| ==> (readable[j] <==> Readable(o, events, j))
  {
    seq(|events|, j requires 0 <= j < |events| => Readable(o, events, j))
  }

  /** A replacement for a whole response that can be read has its destination in the registry and the
      parameters. */
  ghost predicate WholesServed(params: Params, registry: Params, rs: seq<Replacement>, i: nat, readable: seq<bool>,
      upTo: nat)
    requires |readable| == i
  {
    forall k :: 0 <= k < upTo && k < |rs| && rs[k].fullResponse ==>
      rs[k].backendIndex < i && readable[rs[k].backendIndex] ==> Settles(params, registry, rs[k].destination)
  }

  /** What the maps of all parts hold after the events. */
  function DataOfAll(events: seq<Event>): (data: seq<Fields>)
    ensures |data| == |events| && forall j :: 0 <= j < |events| ==> data[j] == DataAfter(events, j)
  {
    seq(|events|, j requires 0 <= j < |events| => DataAfter(events, j))
  }

  /** An event of backend i at these parameters and this registry: left out exactly if its filter says
      so, and otherwise with what that backend sent. */
  ghost predicate Fits(setup: Setup, i: nat, e: Event, params: Params, registry: Params) {
    && i < |setup.orders.next| && GivenFits(setup.orders)
    && SeenParams(e) == params && SeenRegistry(e) == registry
    && (e.LeftOut? <==> Excluded(setup.filters, i, params))
    && OwnMessage(e, setup.orders, i)
  }

  /** What propagation at turn i leaves. */
  ghost predicate Propagated(setup: Setup, events: seq<Event>, i: nat, params: Params, registry: Params) {
    0 < i < |setup.replacements| ==>
      && i == |events| <= |setup.orders.next|
      && WholesServed(params, registry, setup.replacements[i], i, ReadableParts(setup.orders, events),
         |setup.replacements[i]|)
      && Supplied(params, registry, setup.replacements[i], i, |setup.replacements[i]|)
      && (setup.orders.unshared ==>
         AllServed(params, registry, setup.replacements[i], i, DataOfAll(events), setup.show,
         |setup.replacements[i]|))
  }

  /** Event k is what the loop was to do: a filter alone leaves a backend out; what the call produced
      is what that backend sent; every destination the backend lists that has been found is in the
      parameters it sees, with the value found; and whatever its lookups find has been captured. */
  ghost predicate EventOk(setup: Setup, events: seq<Event>, k: nat)
    requires k < |events| <= |setup.orders.next|
  {
    && Fits(setup, k, events[k], SeenParams(events[k]), SeenRegistry(events[k]))
    && Propagated(setup, events[..k], k, SeenParams(events[k]), SeenRegistry(events[k]))
  }

  /** A capture is listed by the backend at whose turn it happened and, with unshared maps, genuine with
      respect to what the combiner had made of its part by then. */
  ghost predicate CaptureOk(setup: Setup, events: seq<Event>, c: Capture) {
    && c.r.backendIndex < c.at <= |events| && c.at < |setup.replacements| && c.r in setup.replacements[c.at]
    && (setup.orders.unshared ==> Genuine(c, DataAfter(events[..c.at], c.r.backendIndex), setup.show))
  }

  /** From its turn on, a captured value that is not empty is the one found for its destination. */
  ghost predicate Lasts(events: seq<Event>, c: Capture) {
    forall m :: c.at <= m < |events| && c.value != "" ==>
      c.r.destination in SeenRegistry(events[m]) && SeenRegistry(events[m])[c.r.destination] == c.value
  }

  ghost predicate LogOk(setup: Setup, events: seq<Event>, invocations: seq<nat>, registry: Params,
      captures: seq<Capture>) {
    && |events| <= |setup.orders.next| && invocations == CalledIndices(events)
    && Registered(registry, captures, |events|)
    && (forall k {:trigger EventOk(setup, events, k)} :: 0 <= k < |events| ==>
          EventOk(setup, events, k) && Sourced(SeenRegistry(events[k]), captures, k))
    && (forall k {:trigger CaptureOk(setup, events, captures[k])} :: 0 <= k < |captures| ==>
          CaptureOk(setup, events, captures[k]) && Lasts(events, captures[k]))
  }

  /** The replacements of a turn leave what the log needs. */
  lemma TurnPropagated(
    setup: Setup, events: seq<Event>, i: nat, params: Params, registry: Params, data: seq<Fields>, taken: seq<Capture>)
    requires 0 < i == |events| == |data| && i < |setup.replacements|
    requires setup.orders.unshared ==> data == DataOfAll(events)
    requires Supplied(params, registry, setup.replacements[i], i, |setup.replacements[i]|)
    requires AllServed(params, registry, setup.replacements[i], i, data, setup.show, |setup.replacements[i]|)
    requires |events| <= |setup.orders.next|
    requires WholesServed(params, registry, setup.replacements[i], i, ReadableParts(setup.orders, events),
      |setup.replacements[i]|)
    requires CapturedAt(i, taken, setup.replacements[i], data, setup.show)
    ensures Propagated(setup, events, i, params, registry)
    ensures forall k :: 0 <= k < |taken| ==> CaptureOk(setup, events, taken[k]) && taken[k].at == i
  {
    assert events[..i] == events;
  }

  lemma EventOkStays(setup: Setup, events: seq<Event>, e: Event, k: nat)
    requires k < |events| < |setup.orders.next| && EventOk(setup, events, k)
    ensures EventOk(setup, events + [e], k)
  {
    assert (events + [e])[..k] == events[..k];
  }

  lemma CaptureOkStays(setup: Setup, events: seq<Event>, e: Event, c: Capture)
    requires CaptureOk(setup, events, c)
    ensures CaptureOk(setup, events + [e], c)
  {
    assert (events + [e])[..c.at] == events[..c.at];
  }

  lemma SourcedStays(registry: Params, captures: seq<Capture>, taken: seq<Capture>, m: nat)
    requires Sourced(registry, captures, m)
    ensures Sourced(registry, captures + taken, m)
  {
    forall d | d in registry
      ensures HasSource(registry, captures + taken, m, d)
    {
      assert HasSource(registry, captures, m, d);
      var k :| 0 <= k < |captures| && Gave(captures[k], d, registry[d], m);
      assert (captures + taken)[k] == captures[k];
    }
  }

  lemma SourcedLater(registry: Params, captures: seq<Capture>, m: nat)
    requires Sourced(registry, captures, m)
    ensures Sourced(registry, captures, m + 1)
  {
    forall d | d in registry
      ensures HasSource(registry, captures, m + 1, d)
    {
      assert HasSource(registry, captures, m, d);
      var k :| 0 <= k < |captures| && Gave(captures[k], d, registry[d], m);
      assert Gave(captures[k], d, registry[d], m + 1);
    }
  }

  lemma CapturesGrow(
    setup: Setup, events: seq<Event>, registry: Params, captures: seq<Capture>, taken: seq<Capture>, e: Event)
    requires forall k :: 0 <= k < |captures| ==> CaptureOk(setup, events, captures[k]) && Lasts(events, captures[k])
    requires forall k :: 0 <= k < |taken| ==> CaptureOk(setup, events, taken[k]) && taken[k].at == |events|
    requires Registered(registry, captures + taken, |events|) && SeenRegistry(e) == registry
    ensures forall k :: 0 <= k < |captures + taken| ==>
      CaptureOk(setup, events + [e], (captures + taken)[k]) && Lasts(events + [e], (captures + taken)[k])
  {
    var cs := captures + taken;
    forall k | 0 <= k < |cs|
      ensures CaptureOk(setup, events + [e], cs[k]) && Lasts(events + [e], cs[k])
    {
      assert if k < |captures| then cs[k] == captures[k] else cs[k] == taken[k - |captures|];
      CaptureOkStays(setup, events, e, cs[k]);
    }
  }

  /** One more event, with the captures taken at its turn. */
  lemma LogGrows(
    setup: Setup, events: seq<Event>, invocations: seq<nat>, registry: Params, captures: seq<Capture>,
    registry': Params, taken: seq<Capture>, e: Event)
    requires LogOk(setup, events, invocations, registry, captures) && |events| < |setup.orders.next|
    requires Registered(registry', captures + taken, |events|)
    requires Fits(setup, |events|, e, SeenParams(e), registry')
      && Propagated(setup, events, |events|, SeenParams(e), registry')
    requires forall k :: 0 <= k < |taken| ==> CaptureOk(setup, events, taken[k]) && taken[k].at == |events|
    ensures LogOk(setup, events + [e], invocations + (if e.Called? then [|events|] else []), registry',
      captures + taken)
  {
    assert (events + [e])[..|events|] == events;
    forall k | 0 <= k < |events|
      ensures EventOk(setup, events + [e], k) && Sourced(SeenRegistry((events + [e])[k]), captures + taken, k)
    {
      EventOkStays(setup, events, e, k);
      SourcedStays(SeenRegistry(events[k]), captures, taken, k);
    }
    CapturesGrow(setup, events, registry', captures, taken, e);
    SourcedLater(registry', captures + taken, |events|);
  }

  function EffectHere(r: Replacement, i: nat, registry: Params, data: seq<Fields>, body: Option<string>,
      show: Show): Effect
    requires r.source != [] && |data| == i
  {
    EffectOf(r, i, registry, if r.backendIndex < i then data[r.backendIndex] else map[], body, show)
  }

  /** One more replacement of a turn. */
  lemma PropagateStep(
    params: Params, registry: Params, rs: seq<Replacement>, i: nat, n: nat, data: seq<Fields>, body: Option<string>,
    show: Show)
    requires n < |rs| && rs[n].source != [] && |data| == i
    requires Supplied(params, registry, rs, i, n) && AllServed(params, registry, rs, i, data, show, n)
    ensures var e := EffectHere(rs[n], i, registry, data, body, show);
      var params', registry' := ParamsAfter(params, rs[n].destination, e),
        RegistryAfter(registry, rs[n].destination, e);
      Supplied(params', registry', rs, i, n + 1) && AllServed(params', registry', rs, i, data, show, n + 1)
  {
  }

  lemma WholesStep(
    params: Params, registry: Params, rs: seq<Replacement>, i: nat, n: nat, data: seq<Fields>, body: Option<string>,
    show: Show,
    readable: seq<bool>)
    requires n < |rs| && rs[n].source != [] && |data| == |readable| == i
    requires WholesServed(params, registry, rs, i, readable, n)
    requires rs[n].backendIndex < i && readable[rs[n].backendIndex] ==> body.Some?
    ensures var e := EffectHere(rs[n], i, registry, data, body, show);
      WholesServed(ParamsAfter(params, rs[n].destination, e), RegistryAfter(registry, rs[n].destination, e), rs, i,
        readable, n + 1)
  {
  }

  lemma TakenStep(
    registry: Params, rs: seq<Replacement>, i: nat, n: nat, data: seq<Fields>, body: Option<string>, show: Show,
    taken: seq<Capture>)
    requires n < |rs| && rs[n].source != [] && |data| == i && CapturedAt(i, taken, rs, data, show)
    ensures var e := EffectHere(rs[n], i, registry, data, body, show);
      CapturedAt(i, taken + (if e.Takes? then [Capture(i, rs[n], e.value)] else []), rs, data, show)
  {
  }

  // ---------------------------------------------------------------- what a log tells of the parameters

  /** The data backend j delivered: those of its response before the run, if it was called and answered. */
  function Delivered(setup: Setup, events: seq<Event>, j: nat): Fields
    requires j < |events| <= |setup.orders.next| == |setup.orders.given|
  {
    if events[j].Called? && Sent(setup.orders.next[j]).GotResponse? then FieldsOf(setup.orders.given[j].data) else map[]
  }

  lemma DeliveredIsOwn(setup: Setup, events: seq<Event>, j: nat)
    requires j < |events| <= |setup.orders.next| && EventOk(setup, events, j) && setup.orders.unshared
    ensures FieldsOf(OwnData(events[j])) == Delivered(setup, events, j)
  {
  }

  /** Whatever is captured from a path that exists in backend j's response is the rendering of the value
      backend j delivered, although the combiner writes into one of the maps: as long as the path's
      top-level key is shielded, that is, if that map is backend j's, no response merged since has it. */
  lemma CapturedOwnValue(setup: Setup, events: seq<Event>, c: Capture)
    requires setup.orders.unshared && CaptureOk(setup, events, c) && !c.r.fullResponse
    requires c.at <= |events| <= |setup.orders.next| && EventOk(setup, events, c.r.backendIndex)
    requires Get(Obj(Delivered(setup, events, c.r.backendIndex)), c.r.source).Some?
    requires Shielded(events[..c.at], c.r.backendIndex, c.r.source[0])
    ensures c.value == Rendered(Get(Obj(Delivered(setup, events, c.r.backendIndex)), c.r.source).value, setup.show)
  {
    DeliveredIsOwn(setup, events, c.r.backendIndex);
    assert events[..c.at][c.r.backendIndex] == events[c.r.backendIndex];
    ShieldedLookup(events[..c.at], c.r.backendIndex, c.r.source);
  }

  /** A destination that received a value that is not empty has it in the parameters of every later
      backend that lists the destination. */
  lemma DestinationKeeps(
    setup: Setup, events: seq<Event>, invocations: seq<nat>, registry: Params, captures: seq<Capture>, k: nat, m: nat,
    n: nat)
    requires LogOk(setup, events, invocations, registry, captures)
    requires k < |captures| && captures[k].value != "" && captures[k].at <= m < |events| && m < |setup.replacements|
    requires n < |setup.replacements[m]| && setup.replacements[m][n].destination == captures[k].r.destination
    requires setup.replacements[m][n].backendIndex < m
    ensures captures[k].r.destination in SeenParams(events[m])
    ensures SeenParams(events[m])[captures[k].r.destination] == captures[k].value
  {
    assert CaptureOk(setup, events, captures[k]) && Lasts(events, captures[k]) && EventOk(setup, events, m);
  }

  /** A whole response that was captured and is not empty is the body as it was delivered, and every later
      backend that lists the destination gets it. */
  lemma WholeResponseArrives(
    setup: Setup, events: seq<Event>, invocations: seq<nat>, registry: Params, captures: seq<Capture>,
    bodies: seq<string>,
    k: nat, m: nat, n: nat)
    requires LogOk(setup, events, invocations, registry, captures) && WholesOk(captures, bodies)
    requires k < |captures| && captures[k].r.fullResponse && captures[k].value != ""
    requires captures[k].at <= m < |events| && m < |setup.replacements|
    requires n < |setup.replacements[m]| && setup.replacements[m][n].destination == captures[k].r.destination
    requires setup.replacements[m][n].backendIndex < m
    ensures captures[k].r.backendIndex < |bodies| && captures[k].r.destination in SeenParams(events[m])
    ensures SeenParams(events[m])[captures[k].r.destination] == bodies[captures[k].r.backendIndex]
  {
    assert WholeOk(captures, k, bodies);
    DestinationKeeps(setup, events, invocations, registry, captures, k, m, n);
  }

  /** One destination alone stands for the whole response of backend j. */
  ghost predicate OneForWhole(replacements: seq<seq<Replacement>>, j: nat, destination: string) {
    forall i, k :: 0 <= i < |replacements| && 0 <= k < |replacements[i]| ==>
      replacements[i][k].fullResponse && replacements[i][k].backendIndex == j ==>
        replacements[i][k].destination == destination
  }

  /** Every backend that lists the whole response of an earlier backend gets its body as it was delivered, if
      that can be read. */
  lemma WholeResponseOfBackend(
    setup: Setup, events: seq<Event>, invocations: seq<nat>, registry: Params, captures: seq<Capture>,
    bodies: seq<string>,
    m: nat, r: Replacement)
    requires LogOk(setup, events, invocations, registry, captures) && WholesOk(captures, bodies)
    requires DestinationsAgree(setup.replacements) && OneForWhole(setup.replacements, r.backendIndex, r.destination)
    requires r.fullResponse && r.backendIndex < m < |events| && m < |setup.replacements| && r in setup.replacements[m]
    requires Readable(setup.orders, events, r.backendIndex)
    requires r.backendIndex < |bodies|
    ensures r.destination in SeenParams(events[m]) && SeenParams(events[m])[r.destination] == bodies[r.backendIndex]
  {
    var d, seen, j := r.destination, SeenRegistry(events[m]), r.backendIndex;
    assert EventOk(setup, events, m) && Sourced(seen, captures, m);
    var n :| 0 <= n < |setup.replacements[m]| && setup.replacements[m][n] == r;
    assert Readable(setup.orders, events[..m], j);
    assert HasSource(seen, captures, m, d);
    var k :| 0 <= k < |captures| && Gave(captures[k], d, seen[d], m);
    assert CaptureOk(setup, events, captures[k]);
    OneOfAName(setup.replacements, m, r, captures[k].at, captures[k].r);
    FirstWhole(setup, events, captures, bodies, k, r);
  }

  /** What was captured for it is the body, and no empty rest of it. */
  lemma FirstWhole(setup: Setup, events: seq<Event>, captures: seq<Capture>, bodies: seq<string>, k: nat,
      r: Replacement)
    requires k < |captures| && captures[k].r == r && r.fullResponse && WholesOk(captures, bodies)
    requires r.backendIndex < |bodies|
    requires OneForWhole(setup.replacements, r.backendIndex, r.destination)
    requires forall n :: 0 <= n < |captures| ==> CaptureOk(setup, events, captures[n])
    requires forall n, l :: 0 <= n < l < |captures| && captures[n].r.destination == captures[l].r.destination ==>
      captures[n].value == ""
    ensures captures[k].value == bodies[r.backendIndex]
    decreases k
  {
    var j := r.backendIndex;
    assert WholeOk(captures, k, bodies);
    if Drained(captures[..k], j) {
      var n :| 0 <= n < |captures[..k]| && captures[..k][n].r.fullResponse && captures[..k][n].r.backendIndex == j;
      assert captures[n] == captures[..k][n] && CaptureOk(setup, events, captures[n]);
      var i := captures[n].at;
      var l :| 0 <= l < |setup.replacements[i]| && setup.replacements[i][l] == captures[n].r;
      FirstWhole(setup, events, captures, bodies, n, captures[n].r);
    }
  }

  /** A destination name stands for one value of one backend, as the names the configuration makes do. */
  ghost predicate DestinationsAgree(replacements: seq<seq<Replacement>>) {
    forall i, k, j, l ::
      0 <= i < |replacements| && 0 <= k < |replacements[i]| && 0 <= j < |replacements| && 0 <= l < |replacements[j]| ==>
        replacements[i][k].destination == replacements[j][l].destination ==> replacements[i][k] == replacements[j][l]
  }

  lemma OneOfAName(replacements: seq<seq<Replacement>>, m: nat, r: Replacement, n: nat, r': Replacement)
    requires DestinationsAgree(replacements) && m < |replacements| && r in replacements[m]
    requires n < |replacements| && r' in replacements[n] && r.destination == r'.destination
    ensures r == r'
  {
  }

  /** A lookup that finds a value leaves its destination in the registry, and the parameters the same. */
  lemma LookupServed(setup: Setup, events: seq<Event>, m: nat, r: Replacement)
    requires m < |events| <= |setup.orders.next| && EventOk(setup, events, m) && setup.orders.unshared
    requires r.backendIndex < m < |setup.replacements| && r in setup.replacements[m]
    requires !r.fullResponse && r.source != [] && Lookup(DataAfter(events[..m], r.backendIndex), r.source).Some?
    ensures Settles(SeenParams(events[m]), SeenRegistry(events[m]), r.destination)
  {
    var n :| 0 <= n < |setup.replacements[m]| && setup.replacements[m][n] == r;
    assert Served(SeenParams(events[m]), SeenRegistry(events[m]), r, DataOfAll(events[..m])[r.backendIndex],
      setup.show);
  }

  lemma ShieldedBefore(events: seq<Event>, m: nat, at: nat, j: nat, key: string)
    requires j < at <= m <= |events| && Shielded(events[..m], j, key)
    ensures Shielded(events[..at], j, key)
  {
    assert events[..at][..j + 1] == events[..m][..j + 1];
    assert forall l :: 0 <= l < at ==> events[..at][l] == events[..m][l];
  }

  /** The key is shielded up to one of the turns, m or before, whose backend lists the replacement. */
  ghost predicate ShieldedOnceListed(setup: Setup, events: seq<Event>, m: nat, r: Replacement) {
    r.source != [] && exists f: nat :: ListedShielded(setup, events, m, r, f)
  }

  ghost predicate ListedShielded(setup: Setup, events: seq<Event>, m: nat, r: Replacement, f: nat)
    requires r.source != []
  {
    && r.backendIndex < f <= m && f < |events| && f < |setup.replacements| && r in setup.replacements[f]
    && Shielded(events[..f], r.backendIndex, r.source[0])
  }

  /** At a turn whose backend lists it, a value that exists and is shielded has been captured and is in the
      parameters. */
  lemma OwnValueCaptured(
    setup: Setup, events: seq<Event>, invocations: seq<nat>, registry: Params, captures: seq<Capture>, f: nat,
    r: Replacement)
    returns (k: nat)
    requires LogOk(setup, events, invocations, registry, captures) && setup.orders.unshared
    requires DestinationsAgree(setup.replacements) && GivenFits(setup.orders)
    requires !r.fullResponse && r.source != [] && ListedShielded(setup, events, f, r, f)
    requires Get(Obj(Delivered(setup, events, r.backendIndex)), r.source).Some?
    ensures k < |captures| && captures[k].at <= f && captures[k].r.destination == r.destination
    ensures r.destination in SeenParams(events[f]) && SeenParams(events[f])[r.destination] == captures[k].value
    ensures captures[k].value ==
      Rendered(Get(Obj(Delivered(setup, events, r.backendIndex)), r.source).value, setup.show)
  {
    var d, seen, j := r.destination, SeenRegistry(events[f]), r.backendIndex;
    assert EventOk(setup, events, f) && EventOk(setup, events, j) && Sourced(seen, captures, f);
    DeliveredIsOwn(setup, events, j);
    ShieldedLookup(events[..f], j, r.source);
    LookupServed(setup, events, f, r);
    assert HasSource(seen, captures, f, d);
    k :| 0 <= k < |captures| && Gave(captures[k], d, seen[d], f);
    var c := captures[k];
    assert CaptureOk(setup, events, c);
    OneOfAName(setup.replacements, f, r, c.at, c.r);
    ShieldedBefore(events, f, c.at, j, r.source[0]);
    CapturedOwnValue(setup, events, c);
  }

  /** Every backend that lists a value of an earlier backend's response gets it: when the whole path
      exists in the response of backend j, and its top-level key is shielded up to this turn or, unless the
      rendering is empty, up to an earlier one that lists it too, the parameter has that rendering when the
      listing backend's turn comes. */
  lemma OwnValueArrives(
    setup: Setup, events: seq<Event>, invocations: seq<nat>, registry: Params, captures: seq<Capture>, m: nat,
    r: Replacement)
    requires LogOk(setup, events, invocations, registry, captures) && setup.orders.unshared
    requires DestinationsAgree(setup.replacements) && GivenFits(setup.orders)
    requires r.backendIndex < m < |events| && m < |setup.replacements| && r in setup.replacements[m]
    requires !r.fullResponse && ShieldedOnceListed(setup, events, m, r)
    requires var v := Get(Obj(Delivered(setup, events, r.backendIndex)), r.source);
      v.Some? && (Rendered(v.value, setup.show) != "" || Shielded(events[..m], r.backendIndex, r.source[0]))
    ensures r.destination in SeenParams(events[m])
    ensures SeenParams(events[m])[r.destination] ==
      Rendered(Get(Obj(Delivered(setup, events, r.backendIndex)), r.source).value, setup.show)
  {
    if Shielded(events[..m], r.backendIndex, r.source[0]) {
      var k := OwnValueCaptured(setup, events, invocations, registry, captures, m, r);
    } else {
      var f: nat :| ListedShielded(setup, events, m, r, f);
      var k := OwnValueCaptured(setup, events, invocations, registry, captures, f, r);
      var n :| 0 <= n < |setup.replacements[m]| && setup.replacements[m][n] == r;
      DestinationKeeps(setup, events, invocations, registry, captures, k, m, n);
    }
  }

  // ---------------------------------------------------------------- filters

  /** A backend is left out exactly if it has a filter that rejects the parameters it would have seen. */
  lemma FilterDecides(
    setup: Setup, events: seq<Event>, invocations: seq<nat>, registry: Params, captures: seq<Capture>, k: nat)
    requires LogOk(setup, events, invocations, registry, captures) && k < |events|
    ensures events[k].LeftOut? <==>
      k < |setup.filters| && setup.filters[k].Some? && !setup.filters[k].value(SeenParams(events[k]))
  {
    assert EventOk(setup, events, k);
  }

  // ---------------------------------------------------------------- errors and data

  /** The errors of a run are those that the calls made ended with. */
  lemma RunErrors(setup: Setup, events: seq<Event>, e: Error)
    requires |events| <= |setup.orders.next| && GivenFits(setup.orders)
    requires forall k :: 0 <= k < |events| ==> EventOk(setup, events, k)
    ensures e in AccAfter(|setup.orders.next|, events).errs <==>
      exists k :: 0 <= k < |events| && events[k].Called? && FailsWith(setup.orders.next[k], e)
  {
    EventErrors(|setup.orders.next|, events, e);
    forall k | 0 <= k < |events| && events[k].Called?
      ensures events[k].msg == Failure(e) <==> FailsWith(setup.orders.next[k], e)
      ensures !events[k].msg.NilReply?
    {
      assert EventOk(setup, events, k);
      SentFails(setup.orders.next[k], e);
    }
    if k :| 0 <= k < |events| && events[k].Called? && FailsWith(setup.orders.next[k], e) {
      assert events[k].msg == Failure(e);
    }
  }

  /** Backend k was called and answered, with the key in its data. */
  ghost predicate AnsweredWith(setup: Setup, events: seq<Event>, key: string, k: nat) {
    && k < |events| <= |setup.orders.next| == |setup.orders.given|
    && events[k].Called? && Sent(setup.orders.next[k]).GotResponse?
    && setup.orders.given[k].data.Some? && key in setup.orders.given[k].data.value
  }

  ghost predicate LastAnswerWith(setup: Setup, events: seq<Event>, key: string, k: nat) {
    AnsweredWith(setup, events, key, k) && forall l: nat :: k < l ==> !AnsweredWith(setup, events, key, l)
  }

  /** The data of a run in which several backends answered: every key that one delivered, with the value of the
      last backend that did, and no other key. */
  lemma RunData(setup: Setup, events: seq<Event>, key: string)
    requires |events| <= |setup.orders.next| && GivenFits(setup.orders) && setup.orders.unshared
    requires forall k :: 0 <= k < |events| ==> EventOk(setup, events, k)
    requires |Replies(Msgs(events))| >= 2
    ensures var r := ResultOf(AccAfter(|setup.orders.next|, events));
      && r.Some? && r.value.data.Some?
      && (key in r.value.data.value <==> exists k: nat :: LastAnswerWith(setup, events, key, k))
      && forall k: nat :: LastAnswerWith(setup, events, key, k) ==>
           key in r.value.data.value && r.value.data.value[key] == setup.orders.given[k].data.value[key]
  {
    EventData(|setup.orders.next|, events, key);
    forall k: nat
      ensures EventBrings(events, key, k) <==> AnsweredWith(setup, events, key, k)
      ensures EventBrings(events, key, k) ==> events[k].msg.resp == setup.orders.given[k]
    {
      if k < |events| {
        assert EventOk(setup, events, k);
      }
    }
    forall k: nat
      ensures EventBringsLast(events, key, k) <==> LastAnswerWith(setup, events, key, k)
    {
    }
  }

  // ---------------------------------------------------------------- the verdict

  /** Backend k answers with a complete response, with data where several are merged. */
  ghost predicate DeliversWell(o: Orders, k: nat, several: bool)
    requires k < |o.next| == |o.given|
  {
    Sent(o.next[k]).GotResponse? && o.given[k].complete && (several ==> o.given[k].data.Some?)
  }

  ghost predicate TurnsWell(setup: Setup, events: seq<Event>, k: nat, several: bool)
    requires k < |events| <= |setup.orders.next| == |setup.orders.given|
  {
    Excluded(setup.filters, k, SeenParams(events[k])) || DeliversWell(setup.orders, k, several)
  }

  ghost predicate Answered(setup: Setup, events: seq<Event>, k: nat)
    requires k < |events| <= |setup.orders.next|
  {
    events[k].Called? && Sent(setup.orders.next[k]).GotResponse?
  }

  lemma TurnVerdict(setup: Setup, events: seq<Event>, k: nat, several: bool)
    requires k < |events| <= |setup.orders.next| && GivenFits(setup.orders) && EventOk(setup, events, k)
    ensures Answered(setup, events, k) <==> events[k].Called? && events[k].msg.Reply?
    ensures DeliveredWell(events[k], several) <==> TurnsWell(setup, events, k, several)
  {
  }

  /** Every backend had its turn, and all that were let through deliver well. */
  ghost predicate AllWell(setup: Setup, events: seq<Event>)
    requires |events| <= |setup.orders.next| == |setup.orders.given|
  {
    var several := CalledCount(events) >= 2;
    |events| == |setup.orders.next| && forall k :: 0 <= k < |events| ==> TurnsWell(setup, events, k, several)
  }

  /** The verdict, in terms of the backends: a result is there exactly if a backend that was called
      answered; and it is complete exactly if every backend had its turn, and each that its filter let
      through answers with a complete response, with data if two or more were called. */
  lemma RunVerdict(setup: Setup, events: seq<Event>)
    requires |events| <= |setup.orders.next| && GivenFits(setup.orders)
    requires forall k :: 0 <= k < |events| ==> EventOk(setup, events, k)
    ensures var r := ResultOf(AccAfter(|setup.orders.next|, events));
      && (r.Some? <==> exists k :: 0 <= k < |events| && Answered(setup, events, k))
      && (r.Some? ==> (r.value.complete <==> AllWell(setup, events)))
  {
    var several := CalledCount(events) >= 2;
    SequentialVerdict(|setup.orders.next|, events);
    forall k | 0 <= k < |events|
      ensures Answered(setup, events, k) <==> events[k].Called? && events[k].msg.Reply?
      ensures DeliveredWell(events[k], several) <==> TurnsWell(setup, events, k, several)
    {
      TurnVerdict(setup, events, k, several);
    }
    RunPresence(setup, events);
  }

  lemma RunPresence(setup: Setup, events: seq<Event>)
    requires |events| <= |setup.orders.next|
    requires forall k :: 0 <= k < |events| ==>
      (Answered(setup, events, k) <==> events[k].Called? && events[k].msg.Reply?)
    ensures Replies(Msgs(events)) != [] <==> exists k :: 0 <= k < |events| && Answered(setup, events, k)
  {
    SomeReplyEvent(events);
    if k :| 0 <= k < |events| && events[k].Called? && events[k].msg.Reply? {
      assert Answered(setup, events, k);
    }
  }
}
