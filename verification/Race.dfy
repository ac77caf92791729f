/** The first-complete-wins race of the concurrent middleware (proxy/concurrent.go) as a transition
    system over the shared worker shape, in every interleaving, with the caller's context done or not. */
module Race {
  import opened Options
  import opened JsonTree
  import opened Permutations
  import opened Merging
  import opened WorkerPool

  datatype Phase = Forking(next: nat) | Collecting(turns: nat) | Returned(early: bool)

  /** `response` and `err` are the collector's variables: the worker whose response was received last,
      and the worker whose error was. `ticks` counts the turns spent on the caller's own context. */
  datatype State = State(
    pool: Pool, parentDone: bool, phase: Phase, response: Option<nat>, err: Option<nat>, ticks: nat)

  function Init(n: nat): State {
    State(InitPool(n), false, Forking(0), None, None, 0)
  }

  // ---------------------------------------------------------------- steps

  predicate ForksNext(s: State, s': State) {
    && s.phase.Forking? && s.phase.next < |s.pool.workers|
    && Forks(s.pool, s'.pool, s.phase.next)
    && s' == s.(pool := s'.pool, phase := Forking(s.phase.next + 1))
  }

  predicate StartsCollecting(s: State, s': State) {
    s.phase.Forking? && s.phase.next == |s.pool.workers| && s' == s.(phase := Collecting(0))
  }

  predicate IsComplete(w: Worker) {
    w.Posted? && w.msg.Reply? && w.msg.resp.complete
  }

  predicate InLoop(s: State) {
    s.phase.Collecting? && s.phase.turns < |s.pool.workers|
  }

  /** A turn that receives a response; a complete one ends the race and cancels the shared context. */
  predicate ReceivesResponse(s: State, s': State) {
    && InLoop(s) && TakesPart(s.pool, s'.pool.(done := s.pool.done))
    && var i := s.pool.parts[0];
       && i < |s.pool.workers|
       && if IsComplete(s.pool.workers[i])
          then s' == s.(pool := s'.pool, response := Some(i), phase := Returned(true)) && s'.pool.done
          else
            && s' == s.(pool := s'.pool, response := Some(i), phase := Collecting(s.phase.turns + 1))
            && s'.pool.done == s.pool.done
  }

  predicate ReceivesError(s: State, s': State) {
    && InLoop(s) && TakesError(s.pool, s'.pool)
    && s' == s.(pool := s'.pool, err := Some(s.pool.failed[0]), phase := Collecting(s.phase.turns + 1))
  }

  /** A turn on the caller's context, which once done is always ready. */
  predicate SeesParentDone(s: State, s': State) {
    InLoop(s) && s.parentDone && s' == s.(ticks := s.ticks + 1, phase := Collecting(s.phase.turns + 1))
  }

  /** After n turns: cancel, and return what the variables hold. */
  predicate GivesUp(s: State, s': State) {
    && s.phase.Collecting? && s.phase.turns >= |s.pool.workers|
    && s' == s.(pool := s.pool.(done := true), phase := Returned(false))
  }

  /** The caller's context ends, and with it the shared one. */
  predicate ParentEnds(s: State, s': State) {
    !s.parentDone && s' == s.(parentDone := true, pool := s.pool.(done := true))
  }

  ghost predicate WorkerStep(s: State, s': State) {
    PoolStep(s.pool, s'.pool) && s' == s.(pool := s'.pool)
  }

  ghost predicate Next(s: State, s': State) {
    || ForksNext(s, s') || StartsCollecting(s, s') || ReceivesResponse(s, s') || ReceivesError(s, s')
    || SeesParentDone(s, s') || GivesUp(s, s') || ParentEnds(s, s') || WorkerStep(s, s')
  }

  ghost predicate Run(run: seq<State>, n: nat) {
    && run != [] && run[0] == Init(n)
    && forall i :: 0 <= i < |run| - 1 ==> Next(run[i], run[i + 1])
  }

  // ---------------------------------------------------------------- the collector's variables

  /** Worker i is the last of the list of the given kind. */
  ghost predicate LastOf(taken: seq<nat>, ws: seq<Worker>, replies: bool, v: Option<nat>) {
    match v
    case None => forall k :: 0 <= k < |taken| ==> MessageOf(ws, taken[k]).Reply? != replies
    case Some(i) => exists k :: 0 <= k < |taken| && taken[k] == i && MessageOf(ws, i).Reply? == replies
                                && forall l :: k < l < |taken| ==> MessageOf(ws, taken[l]).Reply? != replies
  }

  lemma LastOfGrows(taken: seq<nat>, ws: seq<Worker>, replies: bool, v: Option<nat>, i: nat)
    requires LastOf(taken, ws, replies, v)
    ensures MessageOf(ws, i).Reply? == replies ==> LastOf(taken + [i], ws, replies, Some(i))
    ensures MessageOf(ws, i).Reply? != replies ==> LastOf(taken + [i], ws, replies, v)
  {
    var t := taken + [i];
    assert t[|taken|] == i;
    if v.Some? {
      var k :| 0 <= k < |taken| && taken[k] == v.value && MessageOf(ws, v.value).Reply? == replies
        && forall l :: k < l < |taken| ==> MessageOf(ws, taken[l]).Reply? != replies;
      assert t[k] == v.value;
    }
  }

  lemma LastOfFrame(taken: seq<nat>, ws: seq<Worker>, ws': seq<Worker>, replies: bool, v: Option<nat>)
    requires LastOf(taken, ws, replies, v)
    requires forall k :: 0 <= k < |taken| ==> MessageOf(ws', taken[k]) == MessageOf(ws, taken[k])
    ensures LastOf(taken, ws', replies, v)
  {
    if v.Some? {
      var k :| 0 <= k < |taken| && taken[k] == v.value && MessageOf(ws, v.value).Reply? == replies
        && forall l :: k < l < |taken| ==> MessageOf(ws, taken[l]).Reply? != replies;
      assert taken[k] == v.value;
    }
  }

  // ---------------------------------------------------------------- the invariant

  predicate NoneComplete(p: Pool, upTo: nat) {
    forall k :: 0 <= k < upTo && k < |p.taken| ==> p.taken[k] < |p.workers| && !IsComplete(p.workers[p.taken[k]])
  }

  ghost predicate StateInv(s: State, n: nat) {
    && Inv(s.pool) && |s.pool.workers| == n
    && (forall i :: 0 <= i < n ==> !s.pool.workers[i].Skipped?)
    && LastOf(s.pool.taken, s.pool.workers, true, s.response)
    && LastOf(s.pool.taken, s.pool.workers, false, s.err)
    && (s.ticks > 0 ==> s.parentDone)
    && match s.phase
       case Forking(next) =>
         && next <= n && s.pool.taken == [] && s.ticks == 0
         && (forall i :: 0 <= i < n ==> (s.pool.workers[i].Idle? <==> i >= next))
       case Collecting(turns) =>
         && NoneIdle(s.pool.workers)
         && turns == |s.pool.taken| + s.ticks <= n && NoneComplete(s.pool, n)
       case Returned(early) =>
         && NoneIdle(s.pool.workers)
         && if early then
              && |s.pool.taken| + s.ticks <= n && s.pool.taken != [] && NoneComplete(s.pool, |s.pool.taken| - 1)
              && s.response == Some(s.pool.taken[|s.pool.taken| - 1])
              && s.response.value < n && IsComplete(s.pool.workers[s.response.value])
            else |s.pool.taken| + s.ticks == n && NoneComplete(s.pool, n)
  }

  lemma TakenArePosted(p: Pool, k: nat)
    requires Inv(p) && k < |p.taken|
    ensures p.taken[k] < |p.workers| && p.workers[p.taken[k]].Posted?
  {
    EverywhereParts(p, p.taken[k]);
  }

  /** Workers whose message was taken stay as they are. */
  lemma TakenStay(p: Pool, p': Pool)
    requires Inv(p) && PoolStep(p, p')
    ensures forall k :: 0 <= k < |p.taken| ==>
      p.taken[k] < |p.workers| == |p'.workers| && p'.workers[p.taken[k]] == p.workers[p.taken[k]]
  {
    StepFrame(p, p');
    forall k | 0 <= k < |p.taken|
      ensures p.taken[k] < |p.workers| && p'.workers[p.taken[k]] == p.workers[p.taken[k]]
    {
      TakenArePosted(p, k);
    }
  }

  /** The collector's part of the invariant does not look at what workers yet to be heard do. */
  lemma OthersMove(s: State, p': Pool, n: nat)
    requires StateInv(s, n) && Inv(p') && |p'.workers| == n && p'.taken == s.pool.taken
    requires forall k :: 0 <= k < |p'.taken| ==>
      p'.taken[k] < n && p'.workers[p'.taken[k]] == s.pool.workers[p'.taken[k]]
    requires forall i :: 0 <= i < n ==>
      !p'.workers[i].Skipped? && (p'.workers[i].Idle? <==> s.pool.workers[i].Idle?)
    ensures StateInv(s.(pool := p'), n)
  {
    var p := s.pool;
    LastOfFrame(p.taken, p.workers, p'.workers, true, s.response);
    LastOfFrame(p.taken, p.workers, p'.workers, false, s.err);
  }

  lemma WorkerStepKeeps(s: State, s': State, n: nat)
    requires StateInv(s, n) && WorkerStep(s, s')
    ensures StateInv(s', n)
  {
    StepKeepsInv(s.pool, s'.pool);
    StepFrame(s.pool, s'.pool);
    TakenStay(s.pool, s'.pool);
    OthersMove(s, s'.pool, n);
  }

  lemma ReceiveKeeps(s: State, s': State, n: nat)
    requires StateInv(s, n) && (ReceivesResponse(s, s') || ReceivesError(s, s'))
    ensures StateInv(s', n)
  {
    var p := s.pool;
    var q := s'.pool.(done := p.done);
    TakeKeepsInv(p, q);
    var i := if ReceivesResponse(s, s') then p.parts[0] else p.failed[0];
    assert q.taken == p.taken + [i] && s'.pool.taken == q.taken && s'.pool.workers == p.workers;
    EverywhereParts(p, i);
    DoneIrrelevant(q, s'.pool);
    LastOfGrows(p.taken, p.workers, true, s.response, i);
    LastOfGrows(p.taken, p.workers, false, s.err, i);
    forall k | 0 <= k < |p.taken|
      ensures q.taken[k] < n && !IsComplete(p.workers[q.taken[k]])
    {
      assert q.taken[k] == p.taken[k];
    }
    WithinCapacity(q);
  }

  lemma DoneIrrelevant(p: Pool, p': Pool)
    requires Inv(p) && p' == p.(done := p'.done)
    ensures Inv(p')
  {
    assert Everywhere(p') == Everywhere(p);
  }

  lemma OtherStepsKeep(s: State, s': State, n: nat)
    requires StateInv(s, n)
    requires StartsCollecting(s, s') || SeesParentDone(s, s') || GivesUp(s, s') || ParentEnds(s, s')
    ensures StateInv(s', n)
  {
    DoneIrrelevant(s.pool, s'.pool);
  }

  lemma ForkKeeps(s: State, s': State, n: nat)
    requires StateInv(s, n) && ForksNext(s, s')
    ensures StateInv(s', n)
  {
    ForkKeepsInv(s.pool, s'.pool, s.phase.next);
  }

  lemma StepKeepsStateInv(s: State, s': State, n: nat)
    requires StateInv(s, n) && Next(s, s')
    ensures StateInv(s', n)
  {
    if WorkerStep(s, s') {
      WorkerStepKeeps(s, s', n);
    } else if ReceivesResponse(s, s') || ReceivesError(s, s') {
      ReceiveKeeps(s, s', n);
    } else if ForksNext(s, s') {
      ForkKeeps(s, s', n);
    } else {
      OtherStepsKeep(s, s', n);
    }
  }

  lemma {:induction false} RunKeepsStateInv(run: seq<State>, n: nat, i: nat)
    requires Run(run, n) && i < |run|
    ensures StateInv(run[i], n)
    decreases i
  {
    if i == 0 {
      InitInv(n);
    } else {
      RunKeepsStateInv(run, n, i - 1);
      assert Next(run[i - 1], run[i - 1 + 1]);
      StepKeepsStateInv(run[i - 1], run[i], n);
    }
  }

  // ---------------------------------------------------------------- the outcome

  /** What the call returns: a response and an error, either of which may be missing. */
  datatype Answer = Answer(response: Option<Resp>, err: Option<Error>)

  function MessageFor(s: State, v: Option<nat>): Option<Msg> {
    if v.None? then None else Some(MessageOf(s.pool.workers, v.value))
  }

  function AnswerOf(s: State): Answer
    requires s.phase.Returned?
  {
    var r, e := MessageFor(s, s.response), MessageFor(s, s.err);
    Answer(if r.Some? && r.value.Reply? then Some(r.value.resp) else None,
           if s.phase.early || e.None? || !e.value.Failure? then None else Some(e.value.err))
  }

  lemma LastReplyIs(s: State, n: nat)
    requires StateInv(s, n)
    ensures s.response.Some? ==> s.response.value in s.pool.taken && MessageOf(s.pool.workers, s.response.value).Reply?
    ensures s.err.Some? ==> s.err.value in s.pool.taken && MessageOf(s.pool.workers, s.err.value).Failure?
    ensures s.pool.taken != [] ==> s.response.Some? || s.err.Some?
  {
    if s.err.Some? {
      EverywhereParts(s.pool, s.err.value);
    }
    if s.pool.taken != [] {
      assert s.pool.taken[0] in s.pool.taken;
    }
  }

  /** Everything that is received was posted, and after n receives nothing is left to receive. */
  lemma AllHeard(p: Pool, n: nat)
    requires Inv(p) && |p.workers| == n && |p.taken| == n
    ensures forall i: nat :: i < n ==> i in p.taken && p.workers[i].Posted?
    ensures p.parts == [] && p.failed == []
  {
    WithinCapacity(p);
    DistinctParts(p);
    DistinctCardinality(p.taken);
    RangeElements(n);
    forall i | i in p.taken
      ensures i < n
    {
      EverywhereParts(p, i);
    }
    SubsetCardinality(Elements(p.taken), Elements(Range(n)));
    forall i: nat | i < n
      ensures i in p.taken && p.workers[i].Posted?
    {
      assert i in Elements(p.taken);
      EverywhereParts(p, i);
    }
  }

  /** The pool in the course of the run. */
  function Pools(run: seq<State>): (ps: seq<Pool>)
    ensures |ps| == |run| && forall k :: 0 <= k < |run| ==> ps[k] == run[k].pool
  {
    seq(|run|, k requires 0 <= k < |run| => run[k].pool)
  }

  lemma RunIsHistory(run: seq<State>, n: nat)
    requires Run(run, n)
    ensures History(Pools(run), n)
  {
    forall k | 0 <= k < |run| - 1
      ensures Moves(Pools(run)[k], Pools(run)[k + 1])
    {
      assert Next(run[k], run[k + 1]);
    }
  }

  /** The last response heard is this one, if there is one. */
  ghost predicate LastResponse(run: seq<State>, response: Option<Resp>) {
    match response
    case None => forall t: nat, resp :: !HeardFrom(Pools(run), t, resp)
    case Some(r) => exists t: nat :: HeardFrom(Pools(run), t, r) && forall u: nat, resp :: t < u ==>
      !HeardFrom(Pools(run), u, resp)
  }

  /** The last error heard is this one, if there is one. */
  ghost predicate LastError(run: seq<State>, err: Option<Error>) {
    match err
    case None => forall t: nat, e :: !HeardFailure(Pools(run), t, e)
    case Some(x) => exists t: nat :: HeardFailure(Pools(run), t, x) && forall u: nat, e :: t < u ==>
      !HeardFailure(Pools(run), u, e)
  }

  /** A call of the proxy returned a complete response that got through. */
  ghost predicate SomeoneWins(run: seq<State>, n: nat) {
    exists i: nat, resp :: i < n && Delivers(Pools(run), i, resp) && resp.complete
  }

  /** With the caller's context never done: the race is won exactly if some call returned a complete response
      that got through, and then such a response comes back as it was returned, without an error; otherwise all
      n calls were heard, once each, and what comes back is the last response heard, which is incomplete, and
      the last error, at least one of them. */
  lemma {:induction false} RaceOutcome(run: seq<State>, n: nat)
    requires n > 1 && Run(run, n)
    requires run[|run| - 1].phase.Returned? && !run[|run| - 1].parentDone
    ensures var s := run[|run| - 1];
      var answer := AnswerOf(s);
      && (s.phase.early <==> SomeoneWins(run, n))
      && (s.phase.early ==>
            && answer.err.None? && answer.response.Some? && answer.response.value.complete
            && LastResponse(run, answer.response)
            && exists i: nat :: i < n && Delivers(Pools(run), i, answer.response.value))
      && (!s.phase.early ==>
            && Enumerates(s.pool.taken, Elements(Range(n)))
            && LastResponse(run, answer.response) && LastError(run, answer.err)
            && (answer.response.Some? ==> !answer.response.value.complete)
            && (answer.response.Some? || answer.err.Some?))
  {
    var s := run[|run| - 1];
    RunKeepsStateInv(run, n, |run| - 1);
    LastReplyIs(s, n);
    AnswerIsLast(run, n);
    WinnersDeliver(run, n);
    if s.phase.early {
      assert IsComplete(s.pool.workers[s.response.value]);
      DeliversHere(run, n, s.response.value);
    } else {
      LosersOutcome(s, n);
    }
  }

  lemma DeliversHere(run: seq<State>, n: nat, i: nat)
    requires Run(run, n) && i < n == |run[|run| - 1].pool.workers|
    requires run[|run| - 1].pool.workers[i].Posted? && run[|run| - 1].pool.workers[i].msg.Reply?
    ensures Delivers(Pools(run), i, run[|run| - 1].pool.workers[i].msg.resp)
  {
    RunIsHistory(run, n);
    DeliversIff(Pools(run), n, i, run[|run| - 1].pool.workers[i].msg.resp);
  }

  predicate SomeComplete(ws: seq<Worker>) {
    exists i :: 0 <= i < |ws| && IsComplete(ws[i])
  }

  lemma WinnersDeliver(run: seq<State>, n: nat)
    requires Run(run, n) && |run[|run| - 1].pool.workers| == n
    ensures SomeoneWins(run, n) <==> SomeComplete(run[|run| - 1].pool.workers)
  {
    var ws := run[|run| - 1].pool.workers;
    RunIsHistory(run, n);
    if i: nat :| i < n && IsComplete(ws[i]) {
      DeliversHere(run, n, i);
    }
    if i: nat, resp :| i < n && Delivers(Pools(run), i, resp) && resp.complete {
      DeliversIff(Pools(run), n, i, resp);
      assert IsComplete(ws[i]);
    }
  }

  /** The response and the error returned are the last ones heard. */
  lemma AnswerIsLast(run: seq<State>, n: nat)
    requires Run(run, n) && run[|run| - 1].phase.Returned? && StateInv(run[|run| - 1], n)
    ensures LastResponse(run, AnswerOf(run[|run| - 1]).response)
    ensures !run[|run| - 1].phase.early ==> LastError(run, AnswerOf(run[|run| - 1]).err)
  {
    ResponseIsLast(run, n);
    if !run[|run| - 1].phase.early {
      ErrorIsLast(run, n);
    }
  }

  lemma Heard(run: seq<State>, n: nat, t: nat)
    requires Run(run, n) && StateInv(run[|run| - 1], n) && t < |run[|run| - 1].pool.taken|
    ensures var msg := MessageOf(run[|run| - 1].pool.workers, run[|run| - 1].pool.taken[t]);
      && (forall resp :: HeardFrom(Pools(run), t, resp) <==> msg == Reply(resp))
      && (forall e :: HeardFailure(Pools(run), t, e) <==> msg == Failure(e))
      && !msg.NilReply?
  {
    RunIsHistory(run, n);
    HeardIsMessage(Pools(run), n, t);
    TakenArePosted(run[|run| - 1].pool, t);
    EverywhereParts(run[|run| - 1].pool, run[|run| - 1].pool.taken[t]);
  }

  lemma ResponseIsLast(run: seq<State>, n: nat)
    requires Run(run, n) && run[|run| - 1].phase.Returned? && StateInv(run[|run| - 1], n)
    ensures LastResponse(run, AnswerOf(run[|run| - 1]).response)
  {
    var s, ps := run[|run| - 1], Pools(run);
    var ws, taken := s.pool.workers, s.pool.taken;
    forall t: nat, resp
      ensures HeardFrom(ps, t, resp) <==> t < |taken| && MessageOf(ws, taken[t]) == Reply(resp)
    {
      if t < |taken| {
        Heard(run, n, t);
      }
    }
    if s.response.Some? {
      var k :| 0 <= k < |taken| && taken[k] == s.response.value && MessageOf(ws, taken[k]).Reply?
        && forall l :: k < l < |taken| ==> !MessageOf(ws, taken[l]).Reply?;
      assert HeardFrom(ps, k, MessageOf(ws, taken[k]).resp);
    }
  }

  lemma LastFailure(s: State, n: nat) returns (k: nat)
    requires StateInv(s, n) && s.err.Some?
    ensures k < |s.pool.taken| && s.pool.taken[k] == s.err.value && MessageOf(s.pool.workers, s.err.value).Failure?
    ensures forall l :: k < l < |s.pool.taken| ==> MessageOf(s.pool.workers, s.pool.taken[l]).Reply?
  {
    var ws, taken := s.pool.workers, s.pool.taken;
    k :| 0 <= k < |taken| && taken[k] == s.err.value && !MessageOf(ws, taken[k]).Reply?
      && forall l :: k < l < |taken| ==> MessageOf(ws, taken[l]).Reply?;
    LastReplyIs(s, n);
  }

  lemma NoFailure(s: State, n: nat)
    requires StateInv(s, n) && s.err.None?
    ensures forall k :: 0 <= k < |s.pool.taken| ==> MessageOf(s.pool.workers, s.pool.taken[k]).Reply?
  {
  }

  lemma ErrorIsLast(run: seq<State>, n: nat)
    requires Run(run, n) && run[|run| - 1].phase == Returned(false) && StateInv(run[|run| - 1], n)
    ensures LastError(run, AnswerOf(run[|run| - 1]).err)
  {
    var s, ps := run[|run| - 1], Pools(run);
    var ws, taken := s.pool.workers, s.pool.taken;
    forall t: nat, e
      ensures HeardFailure(ps, t, e) <==> t < |taken| && MessageOf(ws, taken[t]) == Failure(e)
    {
      if t < |taken| {
        Heard(run, n, t);
      }
    }
    if s.err.Some? {
      var k := LastFailure(s, n);
      assert HeardFailure(ps, k, MessageOf(ws, taken[k]).err);
    } else {
      NoFailure(s, n);
    }
  }

  lemma LosersOutcome(s: State, n: nat)
    requires n > 0 && StateInv(s, n) && s.phase == Returned(false) && !s.parentDone
    ensures Enumerates(s.pool.taken, Elements(Range(n))) && |s.pool.workers| == n
    ensures forall i: nat :: i < n ==> s.pool.workers[i].Posted? && !IsComplete(s.pool.workers[i])
  {
    AllHeard(s.pool, n);
    DistinctParts(s.pool);
    RangeElements(n);
    forall i: nat | i < n
      ensures !IsComplete(s.pool.workers[i])
    {
      assert i in s.pool.taken;
      var k :| 0 <= k < |s.pool.taken| && s.pool.taken[k] == i;
    }
    forall i | i in s.pool.taken
      ensures i < n
    {
      EverywhereParts(s.pool, i);
    }
    assert Elements(s.pool.taken) == Elements(Range(n));
  }

  /** Whatever the caller's context does: after n turns the call returns neither response nor error
      exactly if every single turn was spent on that context; the receives account for the rest. */
  lemma {:induction false} NothingReturnedIff(run: seq<State>, n: nat)
    requires n > 1 && Run(run, n) && run[|run| - 1].phase.Returned?
    ensures var s := run[|run| - 1];
      && (AnswerOf(s) == Answer(None, None) <==> s.ticks == n)
      && (!s.phase.early ==> |s.pool.taken| == n - s.ticks)
      && (s.ticks > 0 ==> s.parentDone)
  {
    var s := run[|run| - 1];
    RunKeepsStateInv(run, n, |run| - 1);
    LastReplyIs(s, n);
  }

  ghost predicate ReturnsNothing(run: seq<State>, n: nat) {
    Run(run, n) && run[|run| - 1].phase.Returned? && AnswerOf(run[|run| - 1]) == Answer(None, None)
  }

  lemma OneMoreStep(run: seq<State>, n: nat, s': State)
    requires Run(run, n) && Next(run[|run| - 1], s')
    ensures Run(run + [s'], n)
  {
    var all := run + [s'];
    forall i | 0 <= i < |all| - 1
      ensures Next(all[i], all[i + 1])
    {
      assert all[i] == run[i];
      assert i < |run| - 1 ==> all[i + 1] == run[i + 1];
    }
  }

  /** All workers forked, and the caller's context done before any of them answers. */
  lemma ForkedAndDone(n: nat) returns (run: seq<State>)
    ensures Run(run, n)
    ensures var s := run[|run| - 1];
      |s.pool.workers| == n && s == Init(n).(pool := s.pool, parentDone := true, phase := Collecting(0))
  {
    var s := Init(n);
    run := [s];
    for i := 0 to n
      invariant Run(run, n) && run[|run| - 1] == s && s == Init(n).(pool := s.pool, phase := Forking(i))
      invariant |s.pool.workers| == n && forall k :: i <= k < n ==> s.pool.workers[k].Idle?
    {
      var s' := s.(pool := Set(s.pool, i, Running), phase := Forking(i + 1));
      assert ForksNext(s, s');
      OneMoreStep(run, n, s');
      run, s := run + [s'], s';
    }
    var s1 := s.(phase := Collecting(0));
    assert StartsCollecting(s, s1);
    OneMoreStep(run, n, s1);
    run := run + [s1];
    var s2 := s1.(parentDone := true, pool := s1.pool.(done := true));
    assert ParentEnds(s1, s2);
    OneMoreStep(run, n, s2);
    run := run + [s2];
  }

  /** It does happen, for every number of calls: with the context done before anyone answers, nothing at
      all comes back. */
  lemma NothingReturnedHappens(n: nat) returns (run: seq<State>)
    ensures ReturnsNothing(run, n)
  {
    run := ForkedAndDone(n);
    var s0 := run[|run| - 1];
    var s := s0;
    for i := 0 to n
      invariant Run(run, n) && run[|run| - 1] == s && s == s0.(ticks := i, phase := Collecting(i))
    {
      var s' := s.(ticks := i + 1, phase := Collecting(i + 1));
      assert SeesParentDone(s, s');
      OneMoreStep(run, n, s');
      run, s := run + [s'], s';
    }
    var end := s.(pool := s.pool.(done := true), phase := Returned(false));
    assert GivesUp(s, end);
    OneMoreStep(run, n, end);
    run := run + [end];
  }

  /** What the caller has to know: a call may return neither response nor error exactly if the context it
      passes may end. */
  lemma {:induction false} ContextDecides(n: nat, mayEnd: bool)
    requires n > 1
    ensures (exists run: seq<State> :: ReturnsNothing(run, n) && (run[|run| - 1].parentDone ==> mayEnd)) <==> mayEnd
  {
    if mayEnd {
      var run := NothingReturnedHappens(n);
    }
    if run: seq<State> :| ReturnsNothing(run, n) && (run[|run| - 1].parentDone ==> mayEnd) {
      NothingReturnedIff(run, n);
    }
  }

  /** In every state, also long after an early return: a worker that is about to send finds room, so
      those left behind can always finish, and finishing is one step. */
  lemma {:induction false} LeftBehindCanFinish(run: seq<State>, n: nat, k: nat, i: nat) returns (s': State)
    requires Run(run, n) && k < |run| && i < n == |run[k].pool.workers| && run[k].pool.workers[i].Holding?
    ensures |run[k].pool.parts| < n && |run[k].pool.failed| < n
    ensures Next(run[k], s') && i < |s'.pool.workers| && s'.pool.workers[i].Posted? && s'.phase == run[k].phase
  {
    RunKeepsStateInv(run, n, k);
    SendNeverBlocks(run[k].pool, i);
    var p' := HolderCanPost(run[k].pool, i);
    s' := run[k].(pool := p');
    StepFrame(run[k].pool, p');
    assert WorkerStep(run[k], s');
  }

  // ---------------------------------------------------------------- termination

  function Measure(s: State): int {
    Work(s.pool) + (if s.parentDone then 0 else 1)
    + match s.phase
      case Forking(_) => |s.pool.workers| + 2
      case Collecting(turns) => |s.pool.workers| - turns + 1
      case Returned(_) => 0
  }

  lemma WorkerDrops(s: State, s': State, n: nat)
    requires StateInv(s, n) && WorkerStep(s, s')
    ensures Measure(s') < Measure(s)
  {
    StepDoesWork(s.pool, s'.pool);
    StepFrame(s.pool, s'.pool);
  }

  lemma MeasureDrops(s: State, s': State, n: nat)
    requires StateInv(s, n) && Next(s, s')
    ensures Measure(s') < Measure(s)
  {
    if WorkerStep(s, s') {
      WorkerDrops(s, s', n);
    } else if ForksNext(s, s') {
      ForkDoesWork(s.pool, s'.pool, s.phase.next);
    }
  }

  lemma {:induction false} RunsAreBounded(run: seq<State>, n: nat)
    requires Run(run, n)
    ensures |run| - 1 <= |run| - 1 + Measure(run[|run| - 1]) <= Measure(Init(n))
    decreases |run|
  {
    RunKeepsStateInv(run, n, |run| - 1);
    if |run| > 1 {
      var before := run[..|run| - 1];
      assert Run(before, n);
      RunsAreBounded(before, n);
      RunKeepsStateInv(run, n, |run| - 2);
      assert Next(run[|run| - 2], run[|run| - 2 + 1]);
      MeasureDrops(run[|run| - 2], run[|run| - 1], n);
    }
  }

  /** Until the call returns, some step is possible: if every call of the proxy returns, so does the race. */
  lemma {:induction false} NeverStuck(s: State, n: nat) returns (s': State)
    requires StateInv(s, n) && !s.phase.Returned?
    ensures Next(s, s')
  {
    var p := s.pool;
    if s.phase.Forking? {
      if s.phase.next < n {
        s' := s.(pool := Set(p, s.phase.next, Running), phase := Forking(s.phase.next + 1));
        assert ForksNext(s, s');
      } else {
        s' := s.(phase := Collecting(0));
        assert StartsCollecting(s, s');
      }
    } else if s.phase.turns >= n {
      s' := s.(pool := p.(done := true), phase := Returned(false));
      assert GivesUp(s, s');
    } else {
      var i := SomeoneLeft(s, n);
      if p.workers[i].Running? {
        var p' := Set(p, i, Holding(ReturnsNil));
        assert ReturnsFromCall(p, p', i, ReturnsNil);
        s' := s.(pool := p');
        assert WorkerStep(s, s');
      } else if p.workers[i].Holding? {
        var p' := HolderCanPost(p, i);
        s' := s.(pool := p');
        StepFrame(p, p');
        assert WorkerStep(s, s');
      } else {
        EverywhereParts(p, i);
        s' := TakeOne(s, n);
      }
    }
  }

  lemma SomeoneLeft(s: State, n: nat) returns (i: nat)
    requires StateInv(s, n) && s.phase.Collecting? && s.phase.turns < n
    ensures i < n && i !in s.pool.taken
  {
    DistinctParts(s.pool);
    DistinctCardinality(s.pool.taken);
    RangeElements(n);
    if Elements(Range(n)) <= Elements(s.pool.taken) {
      SubsetCardinality(Elements(Range(n)), Elements(s.pool.taken));
    }
    i :| i in Elements(Range(n)) && i !in Elements(s.pool.taken);
  }

  lemma TakeOne(s: State, n: nat) returns (s': State)
    requires StateInv(s, n) && InLoop(s) && (s.pool.parts != [] || s.pool.failed != [])
    ensures Next(s, s')
  {
    var p := s.pool;
    if p.failed != [] {
      var p' := p.(failed := p.failed[1..], taken := p.taken + [p.failed[0]]);
      s' := s.(pool := p', err := Some(p.failed[0]), phase := Collecting(s.phase.turns + 1));
      assert ReceivesError(s, s');
    } else {
      var i := p.parts[0];
      EverywhereParts(p, i);
      var p' := p.(parts := p.parts[1..], taken := p.taken + [i]);
      if IsComplete(p.workers[i]) {
        s' := s.(pool := p'.(done := true), response := Some(i), phase := Returned(true));
      } else {
        s' := s.(pool := p', response := Some(i), phase := Collecting(s.phase.turns + 1));
      }
      assert TakesPart(p, s'.pool.(done := p.done));
      assert ReceivesResponse(s, s');
    }
  }
}
