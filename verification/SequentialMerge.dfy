/** `sequentialMerge` (proxy/merging.go) as the source runs it: one loop over the backends that
    updates `parts`, the shared request parameters, the registry of captured values and the
    accumulator. Ghost fields record what happened; the contracts say what it amounts to. */
module SequentialMerge {
  import opened Options
  import opened JsonTree
  import opened Merging
  import opened SequentialRun
  import opened SequentialLedger
  import opened SequentialLog

  ghost function Body(r: Response?): Option<string>
    reads if r == null then null else r.Io
  {
    if r == null || r.Io == null || r.Io.fails then None else Some(r.Io.rest)
  }

  /** The loop that follows the source path from dictionary to dictionary. */
  method WalkDown(start: Fields, keys: Path) returns (data: Fields)
    ensures data == Walk(start, keys)
  {
    data := start;
    for n := 0 to |keys|
      invariant Walk(data, keys[n..]) == Walk(start, keys)
    {
      assert keys[n..][0] == keys[n] && keys[n..][1..] == keys[n + 1..];
      if keys[n] !in data {
        return;
      }
      var v := data[keys[n]];
      if !v.Obj? {
        return;
      }
      data := v.m;
    }
  }

  method Render(v: Json, show: Show) returns (param: string)
    ensures param == Rendered(v, show) && IsTextOf(param, v, show)
  {
    RenderedIsText(v, show);
    match v {
      case Atom(Items(clean)) =>
        if |clean| == 0 {
          return "";
        }
        param := "";
        for n := 0 to |clean| - 1
          invariant param == if n == 0 then "" else Joined(clean[..n], show) + ","
        {
          assert clean[..n + 1][..n] == clean[..n];
          param := param + show.plain(clean[n]) + ",";
        }
        param := param + show.plain(clean[|clean| - 1]);
      case Atom(Text(s)) =>
        param := s;
      case Atom(Number(n)) =>
        param := show.number(n);
      case Atom(Bool(b)) =>
        param := if b then "true" else "false";
      case _ =>
        param := show.plain(v);
    }
  }

  /** How a turn ends: the loop goes on, is left, or the whole call fails with the raw error. */
  datatype Status = GoOn | Break | Abort(err: Error)

  /** The request that the loop and, where it is not cloned deeply, the backends share. */
  class Request {
    var Params: Params

    constructor (params: Params)
      ensures Params == params
    {
      Params := params;
    }
  }

  /** The two channels, of capacity one each. `invocations` records the calls made. */
  class Channels {
    var out: seq<Response>
    var errCh: seq<Error>
    ghost var invocations: seq<nat>

    constructor ()
      ensures Empty() && invocations == []
    {
      out, errCh, invocations := [], [], [];
    }

    predicate Empty()
      reads this
    {
      out == [] && errCh == []
    }

    /** The call of one backend and its single send, on empty channels of capacity one. */
    method SequentialRequestPart(i: nat, b: Backend, request: Request)
      requires Empty()
      modifies request, this
      ensures request.Params == b.touch(old(request.Params)) && invocations == old(invocations) + [i]
      ensures match b.ret
        case Errs(err) => errCh == [err] && out == []
        case NilRet => errCh == [ErrNullResult] && out == []
        case Gives(response) =>
          if b.contextWins then errCh == [ContextDone] && out == [] else out == [response] && errCh == []
    {
      invocations := invocations + [i];
      request.Params := b.touch(request.Params);
      match b.ret {
        case Errs(err) => errCh := errCh + [err];
        case NilRet => errCh := errCh + [ErrNullResult];
        case Gives(response) =>
          if b.contextWins {
            errCh := errCh + [ContextDone];
          } else {
            out := out + [response];
          }
      }
    }

    /** The call and the select on the two channels: what comes is what this backend sent. */
    method Call(i: nat, b: Backend, request: Request) returns (got: Got)
      requires Empty()
      modifies request, this
      ensures Empty() && invocations == old(invocations) + [i] && got == Sent(b)
    {
      SequentialRequestPart(i, b, request);
      if |errCh| > 0 {
        got := GotError(errCh[0]);
        errCh := errCh[1..];
      } else {
        got := GotResponse(out[0]);
        out := out[1..];
      }
    }
  }

  /** The registry of captured values, and the record of how it came about. */
  class Registry {
    var found: Params
    ghost var captures: seq<Capture>

    constructor ()
      ensures found == map[] && captures == []
    {
      found, captures := map[], [];
    }

    method Take(i: nat, r: Replacement, param: string, request: Request)
      requires Registered(found, captures, i) && !Found(found, r.destination)
      modifies request, this
      ensures request.Params == old(request.Params)[r.destination := param]
        && found == old(found)[r.destination := param]
      ensures captures == old(captures) + [Capture(i, r, param)] && Registered(found, captures, i)
    {
      TakeRegisters(found, captures, i, Capture(i, r, param));
      request.Params := request.Params[r.destination := param];
      found := found[r.destination := param];
      captures := captures + [Capture(i, r, param)];
    }
  }

  /** The value of a replacement whose destination is not found: the body, read to its end, or the last
      key in the deepest dictionary reached. */
  method Fetch(part: Response, r: Replacement, deepest: Fields, show: Show) returns (param: Option<string>)
    requires r.source != []
    modifies part.Io
    ensures r.fullResponse ==> param == old(Body(part))
    ensures !r.fullResponse ==> param == LastOf(deepest, r.source, show)
    ensures part.Io != null ==> part.Io.rest == if r.fullResponse then "" else old(part.Io.rest)
  {
    if r.fullResponse {
      if part.Io == null {
        return None;
      }
      var buf, err := part.Io.ReadAll();
      return if err then None else Some(buf);
    }
    var last := r.source[|r.source| - 1];
    if last !in deepest {
      return None;
    }
    var text := Render(deepest[last], show);
    return Some(text);
  }

  method Deepest(part: Response, source: Path) returns (data: Fields)
    requires source != []
    ensures data == Walk(if part.Data == null then map[] else part.Data.m, source[..|source| - 1])
  {
    data := map[];
    if part.Data != null {
      data := part.Data.m;
    }
    if |source| > 1 {
      data := WalkDown(data, source[..|source| - 1]);
    } else {
      assert source[..|source| - 1] == [];
    }
  }

  /** The bodies that the backends hand over. */
  function ReadersOf(next: seq<Backend>): (readers: set<Reader>)
    ensures forall k :: 0 <= k < |next| && next[k].ret.Gives? && next[k].ret.response.Io != null ==>
      next[k].ret.response.Io in readers
  {
    set k | 0 <= k < |next| && next[k].ret.Gives? && next[k].ret.response.Io != null :: next[k].ret.response.Io
  }

  /** What is left in the readers. */
  ghost function RestsOf(readers: set<Reader>): (rests: map<Reader, string>)
    reads readers
    ensures rests.Keys == readers
  {
    map d | d in readers :: d.rest
  }

  /** The bodies of the backends, given what their readers hold. */
  ghost function BodiesIn(next: seq<Backend>, rests: map<Reader, string>): (bodies: seq<string>)
    ensures |bodies| == |next|
    ensures forall k :: 0 <= k < |next| && HasReader(next[k]) && next[k].ret.response.Io in rests ==>
      bodies[k] == rests[next[k].ret.response.Io]
  {
    seq(|next|, k requires 0 <= k < |next| =>
      if HasReader(next[k]) && next[k].ret.response.Io in rests then rests[next[k].ret.response.Io] else "")
  }

  /** No two backends hand over the same reader. */
  ghost predicate ReadersApart(next: seq<Backend>) {
    forall j, k :: 0 <= j < k < |next| && HasReader(next[j]) && HasReader(next[k]) ==>
      next[j].ret.response.Io != next[k].ret.response.Io
  }

  /** A body that no capture has read is as it was delivered; the others are read to their end. */
  ghost predicate Kept(next: seq<Backend>, captures: seq<Capture>, rests: seq<string>, bodies: seq<string>) {
    && |bodies| == |rests| == |next| && WholesOk(captures, bodies)
    && forall k :: 0 <= k < |next| && HasReader(next[k]) && !next[k].ret.response.Io.fails ==>
         rests[k] == if Drained(captures, k) then "" else bodies[k]
  }

  /** A capture of anything else, or of what is left of a body, keeps that. */
  lemma KeptAfter(
    next: seq<Backend>, captures: seq<Capture>, rests: seq<string>, rests': seq<string>, bodies: seq<string>,
    c: Capture)
    requires Kept(next, captures, rests, bodies)
    requires !c.r.fullResponse ==> rests' == rests
    requires c.r.fullResponse ==>
      var j := c.r.backendIndex;
      j < |next| && HasReader(next[j]) && !next[j].ret.response.Io.fails && c.value == rests[j]
        && rests' == rests[j := ""]
    ensures Kept(next, captures + [c], rests', bodies)
  {
    WholesSnoc(captures, c, bodies);
    forall k | 0 <= k < |next| && HasReader(next[k]) && !next[k].ret.response.Io.fails
      ensures rests'[k] == if Drained(captures + [c], k) then "" else bodies[k]
    {
      DrainedSnoc(captures, c, k);
    }
  }

  /** A body whose reader fails is never captured, and may be lost. */
  lemma KeptWithout(next: seq<Backend>, captures: seq<Capture>, rests: seq<string>, rests': seq<string>,
      bodies: seq<string>)
    requires Kept(next, captures, rests, bodies) && |rests'| == |rests|
    requires forall k :: 0 <= k < |next| && HasReader(next[k]) && !next[k].ret.response.Io.fails ==>
      rests'[k] == rests[k]
    ensures Kept(next, captures, rests', bodies)
  {
  }

  class Transaction {
    const next: seq<Backend>
    const filters: seq<Option<Params -> bool>>
    const replacements: seq<seq<Replacement>>
    const show: Show
    const request: Request
    const wire: Channels
    const memo: Registry
    const ledger: Ledger

    /** The bodies of the responses, what the responses were before the run, and whether they share maps. */
    ghost const readers: set<Reader>
    ghost const given: seq<Resp>
    ghost const unshared: bool
    ghost const bodies: seq<string>

    constructor (next: seq<Backend>, filters: seq<Option<Filter>>, replacements: seq<seq<Replacement>>,
                 show: Show, request: Request)
      ensures this.next == next && this.filters == filters && this.replacements == replacements && this.show == show
      ensures this.request == request && unshared == UnsharedBackends(next) && readers == ReadersOf(next)
      ensures given == old(Values(next)) && bodies == BodiesIn(next, old(RestsOf(ReadersOf(next))))
      ensures fresh(wire) && wire.Empty() && wire.invocations == [] && fresh(memo) && memo.found == map[]
        && memo.captures == []
      ensures fresh(ledger) && fresh(ledger.acc) && ledger.Starts(next)
    {
      given := Values(next);
      bodies := BodiesIn(next, RestsOf(ReadersOf(next)));
      this.next, this.filters, this.replacements, this.show, this.request := next, filters, replacements, show, request;
      var l := new Ledger(next);
      ledger := l;
      wire := new Channels();
      memo := new Registry();
      readers := ReadersOf(next);
      unshared := UnsharedBackends(next);
    }

    /** The start is the head of the loop before turn 0. */
    lemma StartsReady()
      requires wire.Empty() && wire.invocations == [] && memo.found == map[] && memo.captures == []
      requires ledger.Starts(next)
      requires given == Values(next) && unshared == UnsharedBackends(next) && readers == ReadersOf(next)
      ensures Ready(0)
    {
      ledger.StartBalanced(TheOrders());
    }

    lemma StartsKept()
      requires memo.captures == [] && bodies == BodiesIn(next, RestsOf(readers))
      ensures BodiesKept()
    {
    }

    ghost function TheOrders(): Orders {
      Orders(next, given, unshared)
    }

    ghost function TheSetup(): Setup {
      Setup(TheOrders(), filters, replacements, show)
    }

    ghost predicate ReadersKnown() {
      forall k :: 0 <= k < |next| && next[k].ret.Gives? && next[k].ret.response.Io != null ==>
        next[k].ret.response.Io in readers
    }

    ghost predicate SourcesOk() {
      forall i, k :: 0 <= i < |replacements| && 0 <= k < |replacements[i]| ==> replacements[i][k].source != []
    }

    ghost predicate BodiesKept()
      reads memo, readers
    {
      KeptWith(memo.captures, RestsOf(readers))
    }

    ghost predicate KeptWith(captures: seq<Capture>, rests: map<Reader, string>) {
      ReadersApart(next) ==> Kept(next, captures, BodiesIn(next, rests), bodies)
    }

    /** The accumulator, the parts and the maps before turn i. */
    ghost predicate Open(i: nat)
      reads ledger, ledger.acc, ledger.responses, ledger.maps, ledger.acc.data
      reads if ledger.acc.data == null then null else ledger.acc.data.Data
    {
      ledger.Valid() && i == |ledger.events| <= |next| && Balanced(TheOrders(), ledger.Now())
    }

    /** What holds at the head of the loop, before turn i: in particular both channels are empty, so that
        the reply a turn receives is that of its own backend. */
    ghost predicate Ready(i: nat)
      reads ledger, wire, memo, ledger.acc, ledger.responses, ledger.maps, ledger.acc.data
      reads if ledger.acc.data == null then null else ledger.acc.data.Data
    {
      && wire.Empty() && Open(i) && ReadersKnown()
      && LogOk(TheSetup(), ledger.events, wire.invocations, memo.found, memo.captures)
      && forall k :: 0 <= k < i ==> GoesOn(ledger.events[k])
    }

    // -------------------------------------------------------------- propagation

    /** The parts before turn i are there, with readers that may be drained, and their maps hold `data`. */
    ghost predicate PartsHold(i: nat, parts: seq<Response?>, data: seq<Fields>)
      reads set j | 0 <= j < |parts| && parts[j] != null && parts[j].Data != null :: parts[j].Data
    {
      && i == |data| <= |parts|
      && forall j :: 0 <= j < i ==>
           && parts[j] != null
           && OwnReader(parts[j], j)
           && data[j] == if parts[j].Data == null then map[] else parts[j].Data.m
    }

    /** One replacement at turn i: every part it reads is there, and its index is below i. */
    method Propagate(i: nat, r: Replacement, parts: seq<Response?>, ghost data: seq<Fields>)
      returns (ghost body: Option<string>, ghost e: Effect)
      requires PartsHold(i, parts, data) && r.source != []
      requires Registered(memo.found, memo.captures, i) && BodiesKept()
      modifies request, memo, readers
      ensures PartsHold(i, parts, data) && BodiesKept()
      ensures var fields := if r.backendIndex < i then data[r.backendIndex] else map[];
        e == EffectOf(r, i, old(memo.found), fields, body, show)
      ensures r.backendIndex < i ==> body == old(Body(parts[r.backendIndex]))
      ensures request.Params == ParamsAfter(old(request.Params), r.destination, e)
      ensures memo.found == RegistryAfter(old(memo.found), r.destination, e)
      ensures memo.captures == old(memo.captures) + (if e.Takes? then [Capture(i, r, e.value)] else [])
      ensures Registered(memo.found, memo.captures, i)
    {
      body, e := None, Nothing;
      if r.backendIndex >= i || parts[r.backendIndex] == null {
        return;
      }
      var part := parts[r.backendIndex];
      body := Body(part);
      var deepest := Deepest(part, r.source);
      if r.destination in memo.found && memo.found[r.destination] != "" {
        request.Params := request.Params[r.destination := memo.found[r.destination]];
        e := Keeps(memo.found[r.destination]);
        return;
      }
      e := FetchAndStore(i, r, part, deepest);
    }

    /** The part is backend j's response, or has no body to read. */
    ghost predicate OwnReader(part: Response, j: nat) {
      part.Io != null ==> part.Io in readers && j < |next| && HasReader(next[j]) && part.Io == next[j].ret.response.Io
    }

    method FetchAndStore(i: nat, r: Replacement, part: Response, deepest: Fields) returns (ghost e: Effect)
      requires Registered(memo.found, memo.captures, i) && !Found(memo.found, r.destination) && r.source != []
      requires OwnReader(part, r.backendIndex) && BodiesKept()
      modifies request, memo, part.Io
      ensures BodiesKept()
      ensures var fetched := if r.fullResponse then old(Body(part)) else LastOf(deepest, r.source, show);
        e == if fetched.Some? then Takes(fetched.value) else Nothing
      ensures request.Params == ParamsAfter(old(request.Params), r.destination, e)
      ensures memo.found == RegistryAfter(old(memo.found), r.destination, e)
      ensures memo.captures == old(memo.captures) + (if e.Takes? then [Capture(i, r, e.value)] else [])
      ensures Registered(memo.found, memo.captures, i)
    {
      ghost var rests, captures := BodiesIn(next, RestsOf(readers)), memo.captures;
      var fetched := Fetch(part, r, deepest, show);
      ghost var rests' := BodiesIn(next, RestsOf(readers));
      e := Store(i, r, fetched);
      assert BodiesIn(next, RestsOf(readers)) == rests';
      if ReadersApart(next) {
        if e.Takes? {
          assert memo.captures == captures + [Capture(i, r, e.value)];
          KeptAfter(next, captures, rests, rests', bodies, Capture(i, r, e.value));
        } else {
          assert memo.captures == captures;
          KeptWithout(next, captures, rests, rests', bodies);
        }
      }
    }

    /** What was fetched, if anything, goes into the parameters and the registry. */
    method Store(i: nat, r: Replacement, fetched: Option<string>) returns (ghost e: Effect)
      requires Registered(memo.found, memo.captures, i) && !Found(memo.found, r.destination)
      modifies request, memo
      ensures e == if fetched.Some? then Takes(fetched.value) else Nothing
      ensures request.Params == ParamsAfter(old(request.Params), r.destination, e)
      ensures memo.found == RegistryAfter(old(memo.found), r.destination, e)
      ensures memo.captures == old(memo.captures) + (if e.Takes? then [Capture(i, r, e.value)] else [])
      ensures Registered(memo.found, memo.captures, i)
    {
      e := Nothing;
      if fetched.Some? {
        memo.Take(i, r, fetched.value, request);
        e := Takes(fetched.value);
      }
    }

    /** The bodies that can be read. */
    ghost predicate PartsReadable(i: nat, parts: seq<Response?>, readable: seq<bool>) {
      && i == |readable| <= |parts|
      && forall j :: 0 <= j < i && readable[j] ==> parts[j] != null && parts[j].Io != null && !parts[j].Io.fails
    }

    /** All replacements of one turn. */
    method PropagateAll(i: nat, parts: seq<Response?>, ghost data: seq<Fields>, ghost readable: seq<bool>)
      returns (ghost taken: seq<Capture>)
      requires i < |replacements| && SourcesOk() && PartsHold(i, parts, data) && PartsReadable(i, parts, readable)
      requires Registered(memo.found, memo.captures, i) && BodiesKept()
      modifies request, memo, readers
      ensures Registered(memo.found, memo.captures, i) && BodiesKept()
      ensures Supplied(request.Params, memo.found, replacements[i], i, |replacements[i]|)
      ensures AllServed(request.Params, memo.found, replacements[i], i, data, show, |replacements[i]|)
      ensures WholesServed(request.Params, memo.found, replacements[i], i, readable, |replacements[i]|)
      ensures memo.captures == old(memo.captures) + taken && CapturedAt(i, taken, replacements[i], data, show)
    {
      taken := [];
      for n := 0 to |replacements[i]|
        invariant PartsHold(i, parts, data) && BodiesKept()
        invariant Registered(memo.found, memo.captures, i)
        invariant Supplied(request.Params, memo.found, replacements[i], i, n)
        invariant AllServed(request.Params, memo.found, replacements[i], i, data, show, n)
        invariant WholesServed(request.Params, memo.found, replacements[i], i, readable, n)
        invariant memo.captures == old(memo.captures) + taken && CapturedAt(i, taken, replacements[i], data, show)
      {
        var r := replacements[i][n];
        ghost var params, registry := request.Params, memo.found;
        ghost var body, e := Propagate(i, r, parts, data);
        PropagateStep(params, registry, replacements[i], i, n, data, body, show);
        WholesStep(params, registry, replacements[i], i, n, data, body, show, readable);
        TakenStep(registry, replacements[i], i, n, data, body, show, taken);
        taken := taken + (if e.Takes? then [Capture(i, r, e.value)] else []);
      }
    }

    /** In the heap, the parts' maps hold what the view says. */
    lemma PartsData(i: nat) returns (data: seq<Fields>)
      requires Open(i) && ReadersKnown()
      ensures PartsHold(i, ledger.parts, data) && forall j :: 0 <= j < i ==> data[j] == DataIn(ledger.Now(), j)
    {
      var v := ledger.Now();
      data := seq(i, j requires 0 <= j < i => DataIn(v, j));
      forall j | 0 <= j < i
        ensures ledger.parts[j] != null && OwnReader(ledger.parts[j], j)
        ensures data[j] == if ledger.parts[j].Data == null then map[] else ledger.parts[j].Data.m
      {
        assert PartOk(TheOrders(), v, j);
      }
    }

    /** Bodies of responses that were handed over by reader can be read, unless that fails. */
    lemma PartsCanBeRead(i: nat)
      requires Open(i)
      ensures PartsReadable(i, ledger.parts, ReadableParts(TheOrders(), ledger.events))
    {
      var v := ledger.Now();
      forall j | 0 <= j < i && ReadableParts(TheOrders(), ledger.events)[j]
        ensures ledger.parts[j] != null && ledger.parts[j].Io != null && !ledger.parts[j].Io.fails
      {
        assert PartOk(TheOrders(), v, j);
      }
    }

    /** With unshared responses, they hold what `DataAfter` says. */
    lemma DataIsAfter(i: nat, data: seq<Fields>)
      requires Open(i) && unshared && |data| == i && forall j :: 0 <= j < i ==> data[j] == DataIn(ledger.Now(), j)
      ensures data == DataOfAll(ledger.events)
    {
      forall j | 0 <= j < i
        ensures data[j] == DataAfter(ledger.events, j)
      {
        assert SlotOk(ledger.Now(), j);
      }
    }

    /** The first half of a turn: propagation, and what the log needs to know of it. */
    method BeginTurn(i: nat) returns (ghost taken: seq<Capture>)
      requires i < |next| == |replacements| && SourcesOk() && Open(i) && ReadersKnown()
      requires Registered(memo.found, memo.captures, i) && BodiesKept()
      modifies request, memo, readers
      ensures BodiesKept()
      ensures ledger.Now() == old(ledger.Now())
      ensures Registered(memo.found, memo.captures, i) && memo.captures == old(memo.captures) + taken
      ensures i == 0 ==> request.Params == old(request.Params)
      ensures Propagated(TheSetup(), ledger.events, i, request.Params, memo.found)
      ensures forall k :: 0 <= k < |taken| ==> CaptureOk(TheSetup(), ledger.events, taken[k]) && taken[k].at == i
    {
      taken := [];
      if i > 0 {
        ghost var data := PartsData(i);
        if unshared {
          DataIsAfter(i, data);
        }
        PartsCanBeRead(i);
        taken := PropagateAll(i, ledger.parts, data, ReadableParts(TheOrders(), ledger.events));
        TurnPropagated(TheSetup(), ledger.events, i, request.Params, memo.found, data, taken);
      }
    }

    // -------------------------------------------------------------- the end of a turn

    /** The account of a turn that went on, or, if the loop is left, the verdict only. */
    ghost predicate After(goesOn: bool)
      reads ledger, ledger.acc, ledger.responses, ledger.maps, ledger.acc.data
      reads if ledger.acc.data == null then null else ledger.acc.data.Data
    {
      ledger.Valid() && |ledger.parts| == |next|
        && if goesOn then Balanced(TheOrders(), ledger.Now()) else Settled(ledger.Now())
    }

    /** A backend left out by its filter. */
    method LeaveOut(i: nat, ghost e: Event)
      requires i < |next| && Open(i) && e.LeftOut?
      modifies ledger, ledger.acc
      ensures After(true) && ledger.events == old(ledger.events) + [e]
      ensures RestsOf(readers) == old(RestsOf(readers))
      ensures forall r :: r in ledger.responses ==> r in old(ledger.responses) || fresh(r)
      ensures forall d :: d in ledger.maps ==> d in old(ledger.maps) || fresh(d)
    {
      ghost var v := ledger.Now();
      ghost var r, d := ledger.LeaveOut(i, e);
      LeftOutBalanced(TheOrders(), v, e, r, d);
    }

    /** A call that failed: the error is merged, and the loop is left. */
    method MergeFailure(i: nat, err: Error, ghost e: Event)
      requires i < |next| && Open(i) && e.Called? && e.msg == Failure(err)
      modifies ledger, ledger.acc, ledger.responses, ledger.maps
      ensures After(false) && ledger.events == old(ledger.events) + [e]
      ensures ledger.responses == old(ledger.responses) && ledger.maps == old(ledger.maps)
    {
      EventMerges(|next|, ledger.events, e);
      ledger.MergeError(err, e);
    }

    /** A call that answered: its response is merged, and kept as the part unless it is incomplete. */
    method MergeReply(i: nat, response: Response, ghost e: Event) returns (goesOn: bool)
      requires i < |next| && Open(i) && FromBackend(TheOrders(), ledger.Now(), e, response)
      modifies ledger, ledger.acc, ledger.responses, ledger.maps
      ensures After(goesOn) && ledger.events == old(ledger.events) + [e] && goesOn == GoesOn(e)
      ensures forall r :: r in ledger.responses ==> r in old(ledger.responses) || fresh(r)
      ensures forall d :: d in ledger.maps ==> d in old(ledger.maps) || fresh(d)
    {
      ghost var v := ledger.Now();
      assert PendingOk(TheOrders(), v, i);
      ghost var own := ledger.MergeReply(response, e);
      ghost var flags := FlagsOf(ledger.responses);
      if !response.IsComplete {
        EventMerges(|next|, v.events, e);
        return false;
      }
      MergedBalanced(TheOrders(), v, e, response, own, flags);
      ledger.KeepPart(i, response);
      return true;
    }

    // -------------------------------------------------------------- a turn and a run

    /** The first backend is called and fails. */
    ghost predicate FirstFails(params: Params) {
      |next| > 0 && !Excluded(filters, 0, params) && Sent(next[0]).GotError?
    }

    /** What the loop does with what came: an error of the first backend ends the call at once. */
    method MergeGot(i: nat, got: Got, ghost e: Event) returns (status: Status)
      requires i < |next| && Open(i) && got == Sent(next[i]) && e.Called? && e.msg == MsgIn(ledger.Now(), got)
      modifies ledger, ledger.acc, ledger.responses, ledger.maps
      ensures RestsOf(readers) == old(RestsOf(readers))
      ensures status.Abort? <==> i == 0 && got.GotError?
      ensures status.Abort? ==> got == GotError(status.err) && ledger.Valid()
      ensures !status.Abort? ==>
        After(status.GoOn?) && ledger.events == old(ledger.events) + [e] && (status.GoOn? <==> GoesOn(e))
      ensures forall r :: r in ledger.responses ==> r in old(ledger.responses) || fresh(r)
      ensures forall d :: d in ledger.maps ==> d in old(ledger.maps) || fresh(d)
    {
      match got {
        case GotError(err) =>
          if i == 0 {
            return Abort(err);
          }
          MergeFailure(i, err, e);
          status := Break;
        case GotResponse(response) =>
          var goesOn := MergeReply(i, response, e);
          status := if goesOn then GoOn else Break;
      }
    }

    /** The call: what it sends is received at once. */
    method Receive(i: nat) returns (got: Got, ghost e: Event)
      requires i < |next| && wire.Empty() && Open(i)
      modifies request, wire
      ensures wire.Empty() && wire.invocations == old(wire.invocations) + [i]
        && RestsOf(readers) == old(RestsOf(readers))
      ensures Open(i) && got == Sent(next[i]) && e.Called? && e.msg == MsgIn(ledger.Now(), got)
      ensures SeenParams(e) == old(request.Params) && SeenRegistry(e) == old(memo.found)
        && OwnMessage(e, TheOrders(), i)
    {
      ghost var v, seen := ledger.Now(), request.Params;
      got := wire.Call(i, next[i], request);
      e := Called(seen, memo.found, MsgIn(v, got));
      assert ledger.Now() == v;
      MessageIsOwn(TheOrders(), v, e);
    }

    /** The part of a turn that calls the backend. */
    method CallTurn(i: nat) returns (status: Status, ghost e: Event)
      requires i < |next| && wire.Empty() && Open(i)
      modifies request, wire, ledger, ledger.acc, ledger.responses, ledger.maps
      ensures wire.Empty() && wire.invocations == old(wire.invocations) + [i] && ledger.Valid()
      ensures RestsOf(readers) == old(RestsOf(readers))
      ensures status.Abort? <==> i == 0 && Sent(next[i]).GotError?
      ensures status.Abort? ==> Sent(next[i]) == GotError(status.err)
      ensures !status.Abort? ==>
        After(status.GoOn?) && ledger.events == old(ledger.events) + [e] && (status.GoOn? <==> GoesOn(e))
      ensures e.Called? && SeenParams(e) == old(request.Params) && SeenRegistry(e) == old(memo.found)
      ensures OwnMessage(e, TheOrders(), i)
      ensures forall r :: r in ledger.responses ==> r in old(ledger.responses) || fresh(r)
      ensures forall d :: d in ledger.maps ==> d in old(ledger.maps) || fresh(d)
    {
      var got;
      got, e := Receive(i);
      status := MergeGot(i, got, e);
    }

    /** Turn i, after propagation: the filter, then the call and what it produces. */
    method FinishTurn(i: nat) returns (status: Status, ghost e: Event)
      requires i < |next| && wire.Empty() && Open(i)
      modifies request, wire, ledger, ledger.acc, ledger.responses, ledger.maps
      ensures wire.Empty() && wire.invocations == old(wire.invocations) + (if e.Called? then [i] else [])
        && ledger.Valid()
      ensures status.Abort? <==> i == 0 && FirstFails(old(request.Params))
      ensures status.Abort? ==> e.Called? && Sent(next[0]) == GotError(status.err)
      ensures !status.Abort? ==>
        After(status.GoOn?) && ledger.events == old(ledger.events) + [e] && (status.GoOn? <==> GoesOn(e))
      ensures Fits(TheSetup(), i, e, old(request.Params), old(memo.found))
      ensures RestsOf(readers) == old(RestsOf(readers))
      ensures forall r :: r in ledger.responses ==> r in old(ledger.responses) || fresh(r)
      ensures forall d :: d in ledger.maps ==> d in old(ledger.maps) || fresh(d)
    {
      ghost var seen := request.Params;
      if i < |filters| && filters[i].Some? && !filters[i].value(request.Params) {
        e := LeftOut(seen, memo.found);
        LeaveOut(i, e);
        return GoOn, e;
      }
      status, e := CallTurn(i);
    }

    /** A whole turn, and what the log has to know of it. */
    method Turn(i: nat) returns (status: Status, ghost e: Event, ghost taken: seq<Capture>)
      requires i < |next| == |replacements| && SourcesOk() && ReadersKnown()
      requires wire.Empty() && Open(i) && Registered(memo.found, memo.captures, i) && BodiesKept()
      modifies request, wire, memo, readers, ledger, ledger.acc, ledger.responses, ledger.maps
      ensures wire.Empty() && wire.invocations == old(wire.invocations) + (if e.Called? then [i] else [])
        && ledger.Valid()
      ensures status.Abort? <==> i == 0 && FirstFails(old(request.Params))
      ensures status.Abort? ==> e.Called? && Sent(next[0]) == GotError(status.err)
      ensures !status.Abort? ==>
        After(status.GoOn?) && ledger.events == old(ledger.events) + [e] && (status.GoOn? <==> GoesOn(e))
      ensures memo.captures == old(memo.captures) + taken && Registered(memo.found, memo.captures, i) && BodiesKept()
      ensures Fits(TheSetup(), i, e, SeenParams(e), memo.found)
      ensures Propagated(TheSetup(), old(ledger.events), i, SeenParams(e), memo.found)
      ensures forall k :: 0 <= k < |taken| ==> CaptureOk(TheSetup(), old(ledger.events), taken[k]) && taken[k].at == i
      ensures forall r :: r in ledger.responses ==> r in old(ledger.responses) || fresh(r)
      ensures forall d :: d in ledger.maps ==> d in old(ledger.maps) || fresh(d)
    {
      taken := BeginTurn(i);
      status, e := FinishTurn(i);
    }

    /** What holds when the loop is over: it came to the end, or the last backend that had its turn
        failed or answered incompletely. */
    ghost predicate LoopDone()
      reads ledger, wire, memo, ledger.acc, ledger.responses, ledger.maps, ledger.acc.data
      reads if ledger.acc.data == null then null else ledger.acc.data.Data
    {
      ledger.Valid() && |ledger.parts| == |next| && Settled(ledger.Now()) && Recorded()
    }

    /** The channels are empty, and the log is in order. */
    ghost predicate Recorded()
      reads ledger, wire, memo
    {
      && wire.Empty() && EndsWell(ledger.events)
      && LogOk(TheSetup(), ledger.events, wire.invocations, memo.found, memo.captures)
    }

    ghost predicate EndsWell(events: seq<Event>) {
      |events| <= |next| && Proceeded(events) && (|events| < |next| ==> events != [] && !GoesOn(events[|events| - 1]))
    }

    lemma TurnEnds(before: seq<Event>, e: Event)
      requires |before| < |next| && forall k :: 0 <= k < |before| ==> GoesOn(before[k])
      ensures GoesOn(e) ==> forall k :: 0 <= k < |before| + 1 ==> GoesOn((before + [e])[k])
      ensures !GoesOn(e) ==> EndsWell(before + [e])
    {
    }

    /** A whole turn, recorded. */
    method LoggedTurn(i: nat) returns (status: Status)
      requires Ready(i) && i < |next| == |replacements| && SourcesOk() && BodiesKept()
      modifies request, wire, memo, readers, ledger, ledger.acc, ledger.responses, ledger.maps
      ensures status.GoOn? ==> Ready(i + 1)
      ensures BodiesKept()
      ensures status.Break? ==> LoopDone()
      ensures status.Abort? <==> i == 0 && FirstFails(old(request.Params))
      ensures status.Abort? ==> Sent(next[0]) == GotError(status.err) && wire.invocations == [0] && wire.Empty()
      ensures forall r :: r in ledger.responses ==> r in old(ledger.responses) || fresh(r)
      ensures forall d :: d in ledger.maps ==> d in old(ledger.maps) || fresh(d)
    {
      ghost var before, invocations, registry, captures := ledger.events, wire.invocations, memo.found, memo.captures;
      ghost var e, taken;
      status, e, taken := Turn(i);
      if status.Abort? {
        return;
      }
      TurnEnds(before, e);
      LogGrows(TheSetup(), before, invocations, registry, captures, memo.found, taken, e);
    }

    /** The loop over the backends. */
    method TxLoop() returns (status: Status)
      requires Ready(0) && |replacements| == |next| && SourcesOk() && BodiesKept()
      modifies request, wire, memo, readers, ledger, ledger.acc, ledger.responses, ledger.maps
      ensures status.Abort? <==> FirstFails(old(request.Params))
      ensures status.Abort? ==> Sent(next[0]) == GotError(status.err) && wire.invocations == [0] && wire.Empty()
      ensures !status.Abort? ==> LoopDone()
      ensures BodiesKept()
      ensures forall r :: r in ledger.responses ==> r in old(ledger.responses) || fresh(r)
    {
      ghost var fails := FirstFails(request.Params);
      for i := 0 to |next|
        invariant Ready(i) && BodiesKept()
        invariant i == 0 ==> fails == FirstFails(request.Params)
        invariant i > 0 ==> !fails
        invariant forall r :: r in ledger.responses ==> r in old(ledger.responses) || fresh(r)
        invariant forall d :: d in ledger.maps ==> d in old(ledger.maps) || fresh(d)
      {
        status := LoggedTurn(i);
        if !status.GoOn? {
          return;
        }
      }
      status := GoOn;
    }

    /** What `given` says, against the responses themselves. */
    lemma GivenNow()
      requires Ready(0)
      ensures GivenFits(TheOrders())
      ensures forall k :: 0 <= k < |next| && next[k].ret.Gives? ==>
        && given[k].complete == next[k].ret.response.IsComplete
        && (unshared ==> given[k] == next[k].ret.response.Value())
    {
      var o, v := TheOrders(), ledger.Now();
      forall k | 0 <= k < |next| && next[k].ret.Gives?
        ensures given[k].complete == next[k].ret.response.IsComplete
        ensures unshared ==> given[k] == next[k].ret.response.Value()
      {
        assert PendingOk(o, v, k);
      }
    }

    /** Where a run stops: every event but the last is a backend left out or a complete response; and if a
        backend had no turn, the last event is a call that failed or answered incompletely. */
    lemma RunStops()
      requires Recorded()
      ensures |ledger.events| <= |next|
      ensures forall k :: 0 <= k < |ledger.events| - 1 && ledger.events[k].Called? ==>
        ledger.events[k].msg.Reply? && ledger.events[k].msg.resp.complete
      ensures |ledger.events| < |next| ==>
        && ledger.events != []
        && var e := ledger.events[|ledger.events| - 1];
           e.Called? && (e.msg.Reply? ==> !e.msg.resp.complete)
    {
    }

    /** What the log says about the verdict. */
    lemma Verdict()
      requires Recorded() && GivenFits(TheOrders())
      ensures var r := ResultOf(AccAfter(|next|, ledger.events));
        r.Some? ==> (r.value.complete <==> AllWell(TheSetup(), ledger.events))
    {
      var setup, events := TheSetup(), ledger.events;
      forall k | 0 <= k < |events|
        ensures EventOk(setup, events, k)
      {
      }
      RunVerdict(setup, events);
    }

    /** The accumulator's answer. */
    method Answer() returns (result: Response?, errs: seq<Error>)
      requires ledger.acc.Value() == AccAfter(|next|, ledger.events)
      modifies if ledger.acc.data == null then {} else {ledger.acc.data}
      ensures (if result == null then None else Some(result.Value())) == ResultOf(AccAfter(|next|, ledger.events))
      ensures errs == AccAfter(|next|, ledger.events).errs
    {
      result, errs := ledger.acc.Result();
    }

    /** The answer, once the loop is over. */
    method Conclude() returns (result: Response?, errs: seq<Error>)
      requires LoopDone() && GivenFits(TheOrders())
      modifies if ledger.acc.data == null then {} else {ledger.acc.data}
      ensures Recorded()
      ensures (if result == null then None else Some(result.Value())) == ResultOf(AccAfter(|next|, ledger.events))
      ensures errs == AccAfter(|next|, ledger.events).errs
      ensures result != null ==> (result.IsComplete <==> AllWell(TheSetup(), ledger.events))
    {
      Verdict();
      result, errs := Answer();
    }

    /** The whole call. `raw` is the error of a first backend that failed, returned as it is. Otherwise
        the backends were called in index order, each at most once and none after a failure or an
        incomplete response; every one before such an end had its turn; each turn was what the
        configuration says, on the message that the backend sent, with the flag and, if no map is shared,
        the data its response had before the call; and the answer is that of the accumulator: complete
        exactly if every backend had its turn and all that were let through deliver well. */
    method Run() returns (result: Response?, errs: seq<Error>, raw: Option<Error>)
      requires Ready(0) && |replacements| == |next| && SourcesOk() && BodiesKept()
      modifies request, wire, memo, readers, ledger, ledger.acc, ledger.responses, ledger.maps
      ensures raw.Some? <==> FirstFails(old(request.Params))
      ensures raw.Some? ==>
        result == null && errs == [] && wire.invocations == [0] && FailsWith(next[0], raw.value)
      ensures GivenFits(TheOrders())
      ensures forall k :: 0 <= k < |next| && next[k].ret.Gives? ==>
        && given[k].complete == old(next[k].ret.response.IsComplete)
        && (unshared ==> given[k] == old(next[k].ret.response.Value()))
      ensures raw.None? ==>
        && Recorded()
        && (if result == null then None else Some(result.Value())) == ResultOf(AccAfter(|next|, ledger.events))
        && errs == AccAfter(|next|, ledger.events).errs
      ensures raw.None? && result != null ==> (result.IsComplete <==> AllWell(TheSetup(), ledger.events))
      ensures wire.Empty() && (ReadersApart(next) ==> WholesOk(memo.captures, bodies))
    {
      GivenNow();
      var status := TxLoop();
      if status.Abort? {
        return null, [], Some(status.err);
      }
      result, errs := Conclude();
      raw := None;
    }
  }

  /** A new transaction; no body is touched. */
  method Opened(next: seq<Backend>, filters: seq<Option<Filter>>, replacements: seq<seq<Replacement>>,
      show: Show, request: Request)
    returns (t: Transaction)
    ensures fresh(t) && t.next == next && t.filters == filters && t.replacements == replacements && t.show == show
    ensures t.request == request && t.unshared == UnsharedBackends(next) && t.readers == ReadersOf(next)
    ensures t.given == old(Values(next)) && t.bodies == BodiesIn(next, old(RestsOf(ReadersOf(next))))
    ensures fresh(t.wire) && t.wire.Empty() && t.wire.invocations == []
    ensures fresh(t.memo) && t.memo.found == map[] && t.memo.captures == []
    ensures fresh(t.ledger) && fresh(t.ledger.acc) && t.ledger.Starts(next)
    ensures RestsOf(ReadersOf(next)) == old(RestsOf(ReadersOf(next)))
  {
    t := new Transaction(next, filters, replacements, show, request);
  }

  /** A new transaction, before its first turn. */
  method Begin(next: seq<Backend>, filters: seq<Option<Filter>>, replacements: seq<seq<Replacement>>,
      show: Show, request: Request)
    returns (t: Transaction)
    ensures fresh(t) && fresh(t.ledger) && fresh(t.ledger.acc) && fresh(t.wire) && fresh(t.memo) && t.request == request
    ensures t.next == next && t.TheSetup() ==
      Setup(Orders(next, old(Values(next)), UnsharedBackends(next)), filters, replacements, show)
    ensures t.readers == ReadersOf(next) && t.ledger.responses == ResponsesOf(next) && t.ledger.maps == MapsOf(next)
    ensures t.ledger.acc.data == null && t.bodies == BodiesIn(next, old(RestsOf(ReadersOf(next))))
    ensures t.Ready(0) && t.memo.captures == [] && RestsOf(ReadersOf(next)) == old(RestsOf(ReadersOf(next)))
  {
    ghost var given := Values(next);
    t := Opened(next, filters, replacements, show, request);
    assert Values(next) == given;
    t.StartsReady();
  }

  /** A call of the proxy that the sequential merger is: it may write to the request and to what the
      backends hand over, and to nothing else. `t` is the record of the run. */
  method Serve(next: seq<Backend>, filters: seq<Option<Filter>>, replacements: seq<seq<Replacement>>,
      show: Show, request: Request)
    returns (result: Response?, errs: seq<Error>, raw: Option<Error>, ghost t: Transaction)
    requires |replacements| == |next|
    requires forall i, k :: 0 <= i < |replacements| && 0 <= k < |replacements[i]| ==> replacements[i][k].source != []
    modifies request, ReadersOf(next), ResponsesOf(next), MapsOf(next)
    ensures fresh(t) && t.next == next
      && t.TheSetup() == Setup(Orders(next, old(Values(next)), UnsharedBackends(next)), filters, replacements, show)
    ensures GivenFits(t.TheOrders())
    ensures raw.Some? <==> t.FirstFails(old(request.Params))
    ensures raw.Some? ==> result == null && errs == [] && FailsWith(next[0], raw.value)
    ensures raw.None? ==>
      && t.Recorded()
      && (if result == null then None else Some(result.Value())) == ResultOf(AccAfter(|next|, t.ledger.events))
      && errs == AccAfter(|next|, t.ledger.events).errs
    ensures raw.None? && result != null ==> (result.IsComplete <==> AllWell(t.TheSetup(), t.ledger.events))
    ensures ReadersApart(next) ==> WholesOk(t.memo.captures, BodiesIn(next, old(RestsOf(ReadersOf(next)))))
  {
    var transaction := Begin(next, filters, replacements, show, request);
    transaction.StartsKept();
    result, errs, raw := transaction.Run();
    t := transaction;
  }
}
