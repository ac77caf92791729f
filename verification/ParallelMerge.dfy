/** `parallelMerge` (proxy/merging.go) as a transition system: forking with filters, workers, the
    collector, and the end of the context, in every interleaving. */
module ParallelMerge {
  import opened Options
  import opened JsonTree
  import opened Permutations
  import opened Merging
  import opened WorkerPool

  datatype Phase = Forking(next: nat) | Collecting(received: nat) | Finished

  /** `proxyCount` as the source counts it: it drops by one for every backend a filter leaves out. */
  datatype State = State(pool: Pool, proxyCount: int, phase: Phase, acc: Acc)

  function Init(n: nat): State {
    State(InitPool(n), n, Forking(0), Start(0))
  }

  // ---------------------------------------------------------------- steps

  predicate ForksNext(s: State, s': State) {
    && s.phase.Forking? && s.phase.next < |s.pool.workers|
    && Forks(s.pool, s'.pool, s.phase.next)
    && s' == s.(pool := s'.pool, phase := Forking(s.phase.next + 1))
  }

  predicate SkipsNext(s: State, s': State) {
    && s.phase.Forking? && s.phase.next < |s.pool.workers|
    && Skips(s.pool, s'.pool, s.phase.next)
    && s' == s.(pool := s'.pool, phase := Forking(s.phase.next + 1), proxyCount := s.proxyCount - 1)
  }

  predicate StartsCollecting(s: State, s': State) {
    && s.phase.Forking? && s.phase.next == |s.pool.workers|
    && s' == s.(phase := Collecting(0), acc := Start(s.proxyCount))
  }

  /** One turn of the collector: a receive from either channel and the merge of what came. */
  predicate Collects(s: State, s': State) {
    && s.phase.Collecting? && s.phase.received < s.proxyCount
    && (TakesPart(s.pool, s'.pool) || TakesError(s.pool, s'.pool))
    && (var i := s'.pool.taken[|s.pool.taken|];
        && i < |s.pool.workers| && s.pool.workers[i].Posted?
        && s' == s.(pool := s'.pool, phase := Collecting(s.phase.received + 1),
           acc := MergeOne(s.acc, s.pool.workers[i].msg)))
  }

  /** The collector is through: it reads the result and cancels the context. */
  predicate Finishes(s: State, s': State) {
    && s.phase.Collecting? && s.phase.received >= s.proxyCount
    && s' == s.(pool := s.pool.(done := true), phase := Finished)
  }

  ghost predicate WorkerStep(s: State, s': State) {
    PoolStep(s.pool, s'.pool) && s' == s.(pool := s'.pool)
  }

  ghost predicate Next(s: State, s': State) {
    ForksNext(s, s') || SkipsNext(s, s') || StartsCollecting(s, s') || Collects(s, s') || Finishes(s, s')
      || WorkerStep(s, s')
  }

  ghost predicate Run(run: seq<State>, n: nat) {
    && run != [] && run[0] == Init(n)
    && forall i :: 0 <= i < |run| - 1 ==> Next(run[i], run[i + 1])
  }

  // ---------------------------------------------------------------- the invariant

  function LeftOut(ws: seq<Worker>): set<nat> {
    set i: nat | i < |ws| && ws[i].Skipped?
  }

  /** The backends that are called. */
  function Called(ws: seq<Worker>): set<nat> {
    set i: nat | i < |ws| && !ws[i].Skipped?
  }

  lemma CalledCount(ws: seq<Worker>)
    ensures |Called(ws)| + |LeftOut(ws)| == |ws|
  {
    RangeElements(|ws|);
    assert Elements(Range(|ws|)) == Called(ws) + LeftOut(ws);
  }

  ghost predicate StateInv(s: State, n: nat) {
    && Inv(s.pool) && |s.pool.workers| == n
    && s.proxyCount == n - |LeftOut(s.pool.workers)|
    && match s.phase
       case Forking(next) =>
         && next <= n && s.pool.taken == []
         && (forall i :: 0 <= i < n ==> (s.pool.workers[i].Idle? <==> i >= next))
       case Collecting(received) =>
         && NoneIdle(s.pool.workers)
         && received == |s.pool.taken| <= s.proxyCount
         && s.acc == MergeAll(Start(s.proxyCount), Received(s.pool))
       case Finished =>
         && NoneIdle(s.pool.workers)
         && |s.pool.taken| == s.proxyCount
         && s.acc == MergeAll(Start(s.proxyCount), Received(s.pool))
  }

  /** Steps of goroutines neither skip nor idle anyone, and leave received messages alone. */
  lemma WorkerStepKeeps(p: Pool, p': Pool)
    requires Inv(p) && PoolStep(p, p')
    ensures Inv(p') && |p'.workers| == |p.workers| && p'.taken == p.taken
    ensures LeftOut(p'.workers) == LeftOut(p.workers)
    ensures forall i :: 0 <= i < |p.workers| ==> (p'.workers[i].Idle? <==> p.workers[i].Idle?)
    ensures Received(p') == Received(p)
  {
    StepKeepsInv(p, p');
    StepFrame(p, p');
    forall k | 0 <= k < |p.taken|
      ensures Received(p')[k] == Received(p)[k]
    {
      EverywhereParts(p, p.taken[k]);
      assert p.workers[p.taken[k]].Posted?;
    }
  }

  lemma CollectKeeps(s: State, s': State, n: nat)
    requires StateInv(s, n) && Collects(s, s')
    ensures StateInv(s', n)
  {
    TakeKeepsInv(s.pool, s'.pool);
    var i := s'.pool.taken[|s.pool.taken|];
    var before, after := Received(s.pool), Received(s'.pool);
    forall k | 0 <= k < |before|
      ensures before[k] == after[k]
    {
      assert s.pool.taken[k] == s'.pool.taken[k];
    }
    assert after == before + [s.pool.workers[i].msg];
    assert after[..|after| - 1] == before;
  }

  lemma LeftOutUpdate(ws: seq<Worker>, i: nat, w: Worker)
    requires i < |ws| && ws[i].Idle?
    ensures LeftOut(ws[i := w]) == if w.Skipped? then LeftOut(ws) + {i} else LeftOut(ws)
    ensures |LeftOut(ws[i := w])| == |LeftOut(ws)| + if w.Skipped? then 1 else 0
  {
  }

  lemma ForkKeeps(s: State, s': State, n: nat)
    requires StateInv(s, n) && (ForksNext(s, s') || SkipsNext(s, s'))
    ensures StateInv(s', n)
  {
    ForkKeepsInv(s.pool, s'.pool, s.phase.next);
    LeftOutUpdate(s.pool.workers, s.phase.next, s'.pool.workers[s.phase.next]);
  }

  lemma StepKeepsStateInv(s: State, s': State, n: nat)
    requires StateInv(s, n) && Next(s, s')
    ensures StateInv(s', n)
  {
    if WorkerStep(s, s') {
      WorkerStepKeeps(s.pool, s'.pool);
    } else if Collects(s, s') {
      CollectKeeps(s, s', n);
    } else if ForksNext(s, s') || SkipsNext(s, s') {
      ForkKeeps(s, s', n);
    } else if StartsCollecting(s, s') {
      CalledCount(s.pool.workers);
      assert Received(s.pool) == [];
    } else {
      assert Inv(s'.pool);
      assert Received(s'.pool) == Received(s.pool);
    }
  }

  lemma {:induction false} RunKeepsStateInv(run: seq<State>, n: nat, i: nat)
    requires Run(run, n) && i < |run|
    ensures StateInv(run[i], n)
    decreases i
  {
    if i == 0 {
      InitInv(n);
      assert LeftOut(Init(n).pool.workers) == {};
    } else {
      RunKeepsStateInv(run, n, i - 1);
      assert Next(run[i - 1], run[i - 1 + 1]);
      StepKeepsStateInv(run[i - 1], run[i], n);
    }
  }

  // ---------------------------------------------------------------- safety at every state

  /** In every state of every run: no channel ever holds more than its capacity, a worker about to
      send finds room in both, and every message posted is in exactly one place. */
  lemma {:induction false} NoSendBlocks(run: seq<State>, n: nat, k: nat, i: nat)
    requires Run(run, n) && k < |run| && i < n
    ensures var p := run[k].pool;
      && |p.workers| == n && |p.parts| <= n && |p.failed| <= n
      && (p.workers[i].Holding? ==> |p.parts| < n && |p.failed| < n)
      && multiset(Everywhere(p))[i] == if p.workers[i].Posted? then 1 else 0
  {
    RunKeepsStateInv(run, n, k);
    var p := run[k].pool;
    WithinCapacity(p);
    if !p.workers[i].Posted? {
      SendNeverBlocks(p, i);
    }
    DistinctCount(Everywhere(p), i);
  }

  // ---------------------------------------------------------------- the end

  /** At the end the messages received are exactly those of the called backends, one each, and both
      channels are empty. */
  lemma FinishedIsQuiet(s: State, n: nat)
    requires StateInv(s, n) && s.phase.Finished?
    ensures Enumerates(s.pool.taken, Called(s.pool.workers))
    ensures s.pool.parts == [] && s.pool.failed == []
    ensures forall i :: 0 <= i < n && !s.pool.workers[i].Skipped? ==> s.pool.workers[i].Posted?
    ensures s.acc.pending == 0
  {
    var p := s.pool;
    CalledCount(p.workers);
    DistinctParts(p);
    DistinctCardinality(p.taken);
    DistinctCardinality(Everywhere(p));
    assert forall i :: i in p.taken ==> i in Everywhere(p);
    assert Elements(p.taken) <= Elements(Everywhere(p)) <= Called(p.workers);
    SubsetCardinality(Elements(p.taken), Called(p.workers));
    SubsetCardinality(Elements(Everywhere(p)), Called(p.workers));
    forall i | 0 <= i < n && !p.workers[i].Skipped?
      ensures p.workers[i].Posted?
    {
      assert i in Called(p.workers) && i in Elements(Everywhere(p));
    }
    MergeAllSummary(s.proxyCount, Received(p));
  }

  /** What a worker has to have posted for the result to be complete. */
  predicate GoodReply(w: Worker, several: bool) {
    w.Posted? && GoodMessage(w.msg, several)
  }

  ghost predicate AllCalledGood(ws: seq<Worker>, several: bool) {
    forall i: nat :: i in Called(ws) ==> GoodReply(ws[i], several)
  }

  ghost predicate SomeCalledReply(ws: seq<Worker>) {
    exists i: nat :: i in Called(ws) && ws[i].Posted? && ws[i].msg.Reply?
  }

  /** What holds of every message received holds of every called backend's message, and back. */
  lemma MessagesAreOfCalled(s: State, n: nat)
    requires StateInv(s, n) && s.phase.Finished?
    ensures forall k :: 0 <= k < |s.pool.taken| ==>
      s.pool.taken[k] in Called(s.pool.workers) && Received(s.pool)[k] == MessageOf(s.pool.workers, s.pool.taken[k])
    ensures forall i: nat :: i in Called(s.pool.workers) ==>
      s.pool.workers[i].Posted? && exists k :: 0 <= k < |s.pool.taken| && s.pool.taken[k] == i
    ensures |s.pool.taken| == |Called(s.pool.workers)|
  {
    FinishedIsQuiet(s, n);
    CalledCount(s.pool.workers);
    forall k | 0 <= k < |s.pool.taken|
      ensures s.pool.taken[k] in Called(s.pool.workers)
    {
      assert s.pool.taken[k] in Elements(s.pool.taken);
    }
    forall i: nat | i in Called(s.pool.workers)
      ensures exists k :: 0 <= k < |s.pool.taken| && s.pool.taken[k] == i
    {
      assert i in Elements(s.pool.taken);
    }
  }

  lemma VerdictOfCalled(s: State, n: nat, several: bool)
    requires StateInv(s, n) && s.phase.Finished?
    ensures (forall k :: 0 <= k < |Received(s.pool)| ==> GoodMessage(Received(s.pool)[k], several)) <==>
      AllCalledGood(s.pool.workers, several)
  {
    var ws, ms, taken := s.pool.workers, Received(s.pool), s.pool.taken;
    MessagesAreOfCalled(s, n);
    if forall k :: 0 <= k < |ms| ==> GoodMessage(ms[k], several) {
      forall i: nat | i in Called(ws)
        ensures GoodReply(ws[i], several)
      {
        var k :| 0 <= k < |taken| && taken[k] == i;
        assert ms[k] == ws[i].msg;
      }
    }
    if AllCalledGood(ws, several) {
      forall k | 0 <= k < |ms|
        ensures GoodMessage(ms[k], several)
      {
        assert GoodReply(ws[taken[k]], several);
      }
    }
  }

  lemma PresenceOfCalled(s: State, n: nat)
    requires StateInv(s, n) && s.phase.Finished?
    ensures Replies(Received(s.pool)) != [] <==> SomeCalledReply(s.pool.workers)
  {
    var ws, ms, taken := s.pool.workers, Received(s.pool), s.pool.taken;
    MessagesAreOfCalled(s, n);
    SomeReply(ms);
    if k :| 0 <= k < |ms| && ms[k].Reply? {
      assert taken[k] in Called(ws);
    }
    if i: nat :| i in Called(ws) && ws[i].Posted? && ws[i].msg.Reply? {
      var k :| 0 <= k < |taken| && taken[k] == i;
      assert ms[k] == ws[i].msg;
    }
  }

  /** The pool in the course of the run. */
  function Pools(run: seq<State>): (ps: seq<Pool>)
    ensures |ps| == |run| && forall k :: 0 <= k < |run| ==> ps[k] == run[k].pool
  {
    seq(|run|, k requires 0 <= k < |run| => run[k].pool)
  }

  lemma RunIsHistory(run: seq<State>, n: nat)
    requires Run(run, n)
    ensures History(Pools(run), n)
  {
    forall k | 0 <= k < |run| - 1
      ensures Moves(Pools(run)[k], Pools(run)[k + 1])
    {
      assert Next(run[k], run[k + 1]);
    }
  }

  /** Called backends deliver: each one's proxy returned a complete response, with data if there are
      several, that got through. */
  ghost predicate AllDeliver(run: seq<State>, called: set<nat>, several: bool) {
    forall i: nat :: i in called ==>
      exists resp :: Delivers(Pools(run), i, resp) && resp.complete && (several ==> resp.data.Some?)
  }

  ghost predicate SomeDelivers(run: seq<State>, called: set<nat>) {
    exists i: nat, resp :: i in called && Delivers(Pools(run), i, resp)
  }

  /** In every run, at the end: the result is there exactly if some called backend's proxy returned a
      response that got through, and complete exactly if the proxies of all of them returned complete ones
      that did, with data if there are two or more; errors and responses are as many as called backends. */
  lemma {:induction false} ParallelMergeResult(run: seq<State>, n: nat)
    requires Run(run, n) && run[|run| - 1].phase.Finished?
    ensures var s := run[|run| - 1];
      var called := Called(s.pool.workers);
      var r := ResultOf(s.acc);
      && s.pool.parts == [] && s.pool.failed == [] && s.acc.pending == 0
      && |s.acc.errs| + |Replies(Received(s.pool))| == |called|
      && (r.Some? <==> SomeDelivers(run, called))
      && (r.Some? ==> (r.value.complete <==> AllDeliver(run, called, |called| >= 2)))
  {
    var s := run[|run| - 1];
    MergedMessages(run, n);
    RunKeepsStateInv(run, n, |run| - 1);
    MessagesDelivered(run, n, Called(s.pool.workers), |Called(s.pool.workers)| >= 2);
  }

  lemma MessagesDelivered(run: seq<State>, n: nat, called: set<nat>, several: bool)
    requires Run(run, n) && |run[|run| - 1].pool.workers| == n && called == Called(run[|run| - 1].pool.workers)
    ensures SomeCalledReply(run[|run| - 1].pool.workers) <==> SomeDelivers(run, called)
    ensures AllCalledGood(run[|run| - 1].pool.workers, several) <==> AllDeliver(run, called, several)
  {
    var ws := run[|run| - 1].pool.workers;
    RunIsHistory(run, n);
    forall i: nat, resp | i in called
      ensures ws[i] == Posted(Reply(resp)) <==> Delivers(Pools(run), i, resp)
    {
      DeliversIff(Pools(run), n, i, resp);
    }
    if i: nat :| i in called && ws[i].Posted? && ws[i].msg.Reply? {
      assert Delivers(Pools(run), i, ws[i].msg.resp);
    }
    if AllCalledGood(ws, several) {
      forall i: nat | i in called
        ensures exists resp :: Delivers(Pools(run), i, resp) && resp.complete && (several ==> resp.data.Some?)
      {
        assert GoodReply(ws[i], several);
        assert Delivers(Pools(run), i, ws[i].msg.resp);
      }
    }
  }

  /** The errors are exactly those with which called backends failed. */
  lemma {:induction false} ParallelMergeErrors(run: seq<State>, n: nat, e: Error)
    requires Run(run, n) && run[|run| - 1].phase.Finished?
    ensures e in run[|run| - 1].acc.errs <==>
      exists i: nat :: i in Called(run[|run| - 1].pool.workers) && FailedWith(Pools(run), i, e)
  {
    var s := run[|run| - 1];
    RunKeepsStateInv(run, n, |run| - 1);
    ResultSummary(s.proxyCount, Received(s.pool));
    FailuresOfCalled(s, n, e);
    RunIsHistory(run, n);
    FinishedIsQuiet(s, n);
    forall i: nat | i in Called(s.pool.workers)
      ensures s.pool.workers[i] == Posted(Failure(e)) <==> FailedWith(Pools(run), i, e)
    {
      FailedIff(Pools(run), n, i, e);
    }
  }

  lemma FailuresOfCalled(s: State, n: nat, e: Error)
    requires StateInv(s, n) && s.phase.Finished?
    ensures e in Errors(Received(s.pool)) <==>
      exists i: nat :: i in Called(s.pool.workers) && s.pool.workers[i] == Posted(Failure(e))
  {
    var ws, ms, taken := s.pool.workers, Received(s.pool), s.pool.taken;
    MessagesAreOfCalled(s, n);
    ErrorMembers(ms, e);
    if t :| 0 <= t < |ms| && MeansError(ms[t], e) {
      PostedReplies(s, n, taken[t]);
    }
    if i: nat :| i in Called(ws) && ws[i] == Posted(Failure(e)) {
      var t :| 0 <= t < |taken| && taken[t] == i;
      assert MeansError(ms[t], e);
    }
  }

  lemma PostedReplies(s: State, n: nat, i: nat)
    requires StateInv(s, n) && s.phase.Finished? && i in Called(s.pool.workers)
    ensures s.pool.workers[i].Posted? && !s.pool.workers[i].msg.NilReply?
  {
    FinishedIsQuiet(s, n);
  }

  /** The worker heard as the t-th brought the key, and none that was heard later did. */
  ghost predicate HeardLast(run: seq<State>, key: string, t: nat, resp: Resp)
  {
    && HeardFrom(Pools(run), t, resp) && resp.data.Some? && key in resp.data.value
    && forall u: nat, later :: t < u && HeardFrom(Pools(run), u, later) && later.data.Some? ==> key !in later.data.value
  }

  /** The data of a result that several responses were merged into: every key that a called backend's proxy
      returned is there, with the value of the last that was heard with it; and no other key is. */
  lemma {:induction false} ParallelMergeData(run: seq<State>, n: nat, key: string)
    requires Run(run, n) && run[|run| - 1].phase.Finished? && |Replies(Received(run[|run| - 1].pool))| >= 2
    ensures var r := ResultOf(run[|run| - 1].acc);
      && r.Some? && r.value.data.Some?
      && (key in r.value.data.value <==> exists t: nat, resp :: HeardLast(run, key, t, resp))
      && forall t: nat, resp :: HeardLast(run, key, t, resp) ==>
           key in r.value.data.value && r.value.data.value[key] == resp.data.value[key]
  {
    var s := run[|run| - 1];
    var ms, taken := Received(s.pool), s.pool.taken;
    RunKeepsStateInv(run, n, |run| - 1);
    ResultSummary(s.proxyCount, ms);
    UnionByMessage(ms, key);
    forall t: nat, resp
      ensures HeardLast(run, key, t, resp) <==> BringsLast(ms, key, t) && ms[t].resp == resp
    {
      HeardIsBrought(run, n, key, t, resp);
    }
    if t: nat :| BringsLast(ms, key, t) {
      assert HeardLast(run, key, t, ms[t].resp);
    }
  }

  lemma {:induction false} HeardIsReply(run: seq<State>, n: nat, u: nat, resp: Resp)
    requires Run(run, n) && run[|run| - 1].phase.Finished?
    ensures HeardFrom(Pools(run), u, resp) <==>
      u < |run[|run| - 1].pool.taken| && Received(run[|run| - 1].pool)[u] == Reply(resp)
  {
    RunKeepsStateInv(run, n, |run| - 1);
    RunIsHistory(run, n);
    if u < |run[|run| - 1].pool.taken| {
      HeardIsMessage(Pools(run), n, u);
    }
  }

  lemma HeardIsBrought(run: seq<State>, n: nat, key: string, t: nat, resp: Resp)
    requires Run(run, n) && run[|run| - 1].phase.Finished?
    ensures var ms := Received(run[|run| - 1].pool);
      HeardLast(run, key, t, resp) <==> BringsLast(ms, key, t) && ms[t].resp == resp
  {
    var ms := Received(run[|run| - 1].pool);
    forall u: nat, later
      ensures HeardFrom(Pools(run), u, later) <==> u < |ms| && ms[u] == Reply(later)
    {
      HeardIsReply(run, n, u, later);
    }
    if HeardLast(run, key, t, resp) {
      forall u | t < u < |ms|
        ensures !BringsKey(ms[u], key)
      {
        if ms[u].Reply? {
          assert HeardFrom(Pools(run), u, ms[u].resp);
        }
      }
    }
  }

  /** The data of a single response come through as they are. */
  lemma {:induction false} ParallelMergeSingle(run: seq<State>, n: nat, i: nat, resp: Resp)
    requires Run(run, n) && run[|run| - 1].phase.Finished? && |Replies(Received(run[|run| - 1].pool))| == 1
    requires Delivers(Pools(run), i, resp) && i < n
    ensures ResultOf(run[|run| - 1].acc).Some? && ResultOf(run[|run| - 1].acc).value.data == resp.data
  {
    var s := run[|run| - 1];
    RunKeepsStateInv(run, n, |run| - 1);
    RunIsHistory(run, n);
    DeliversIff(Pools(run), n, i, resp);
    ReplyOfCalled(s, n, i, resp);
    ResultSummary(s.proxyCount, Received(s.pool));
  }

  lemma ReplyOfCalled(s: State, n: nat, i: nat, resp: Resp)
    requires StateInv(s, n) && s.phase.Finished? && i < n && s.pool.workers[i] == Posted(Reply(resp))
    ensures resp in Replies(Received(s.pool))
  {
    MessagesAreOfCalled(s, n);
    assert i in Called(s.pool.workers);
    var t :| 0 <= t < |s.pool.taken| && s.pool.taken[t] == i;
    ReplyIsThere(Received(s.pool), t);
  }

  lemma {:induction false} ReplyIsThere(ms: seq<Msg>, t: nat)
    requires t < |ms| && ms[t].Reply?
    ensures ms[t].resp in Replies(ms)
    decreases |ms|
  {
    if t < |ms| - 1 {
      ReplyIsThere(ms[..|ms| - 1], t);
    }
  }

  /** Unless the context ends before the merger does, no response is lost: then the verdict is about what the
      proxies returned, and nothing else. */
  lemma {:induction false} NothingLost(run: seq<State>, n: nat, i: nat, resp: Resp)
    requires Run(run, n) && run[|run| - 1].phase.Finished? && i < n
    requires forall k :: 0 <= k < |run| ==> run[k].pool.done ==> run[k].phase.Finished?
    ensures CameBack(Pools(run), i, Returns(resp)) <==> Delivers(Pools(run), i, resp)
  {
    RunIsHistory(run, n);
    var ps := Pools(run);
    RunKeepsStateInv(run, n, |run| - 1);
    FinishedIsQuiet(run[|run| - 1], n);
    CameBackOnce(ps, n, i, Returns(resp));
    var h, o := PostedFrom(ps, n, i);
    DeliversIff(ps, n, i, resp);
    if CameBack(ps, i, Returns(resp)) {
      CalledOnes(run, n, i, Returns(resp));
      assert CameBack(ps, i, o);
      OneOutcome(ps, n, i, o, Returns(resp));
      RunKeepsStateInv(run, n, h);
      if run[h].phase.Finished? {
        FinishedIsQuiet(run[h], n);
      }
    }
  }

  /** A backend whose proxy came back is one that was called. */
  lemma {:induction false} CalledOnes(run: seq<State>, n: nat, i: nat, o: Outcome)
    requires Run(run, n) && i < n
    ensures |run[|run| - 1].pool.workers| == n
    ensures CameBack(Pools(run), i, o) ==> !run[|run| - 1].pool.workers[i].Skipped?
  {
    RunIsHistory(run, n);
    CameBackOnce(Pools(run), n, i, o);
  }

  /** The same over the messages that workers posted. */
  lemma MergedMessages(run: seq<State>, n: nat)
    requires Run(run, n) && run[|run| - 1].phase.Finished?
    ensures var s := run[|run| - 1];
      var ws := s.pool.workers;
      var r := ResultOf(s.acc);
      && s.pool.parts == [] && s.pool.failed == [] && s.acc.pending == 0
      && |s.acc.errs| + |Replies(Received(s.pool))| == |Called(ws)|
      && (r.Some? <==> SomeCalledReply(ws))
      && (r.Some? ==> (r.value.complete <==> AllCalledGood(ws, |Called(ws)| >= 2)))
  {
    var s := run[|run| - 1];
    RunKeepsStateInv(run, n, |run| - 1);
    FinishedIsQuiet(s, n);
    CalledCount(s.pool.workers);
    ResultSummary(s.proxyCount, Received(s.pool));
    MessagesVerdict(Received(s.pool));
    VerdictOfCalled(s, n, |Called(s.pool.workers)| >= 2);
    PresenceOfCalled(s, n);
  }

  /** Two runs in which every backend posted the same message end alike, however differently they
      interleaved: presence, flag and errors agree, and with agreeing keys the data do too. */
  lemma {:induction false} InterleavingIrrelevant(run: seq<State>, run': seq<State>, n: nat)
    requires Run(run, n) && run[|run| - 1].phase.Finished?
    requires Run(run', n) && run'[|run'| - 1].phase.Finished?
    requires run[|run| - 1].pool.workers == run'[|run'| - 1].pool.workers
    ensures var s, s' := run[|run| - 1], run'[|run'| - 1];
      var r, r' := ResultOf(s.acc), ResultOf(s'.acc);
      && (r.None? <==> r'.None?)
      && (r.Some? ==> r.value.complete == r'.value.complete)
      && multiset(s.acc.errs) == multiset(s'.acc.errs)
      && (SharedKeysAgree(Replies(Received(s.pool))) ==> r == r')
  {
    var s, s' := run[|run| - 1], run'[|run'| - 1];
    RunKeepsStateInv(run, n, |run| - 1);
    RunKeepsStateInv(run', n, |run'| - 1);
    FinishedIsQuiet(s, n);
    FinishedIsQuiet(s', n);
    SameMessages(s.pool, s'.pool);
    ArrivalOrderIrrelevant(s.proxyCount, Received(s.pool), Received(s'.pool));
  }

  lemma {:induction false} SameMessages(p: Pool, p': Pool)
    requires p.workers == p'.workers && Inv(p) && Inv(p')
    requires Enumerates(p.taken, Called(p.workers)) && Enumerates(p'.taken, Called(p.workers))
    ensures multiset(Received(p)) == multiset(Received(p'))
  {
    forall i
      ensures multiset(p.taken)[i] == multiset(p'.taken)[i]
    {
      DistinctCount(p.taken, i);
      DistinctCount(p'.taken, i);
      assert i in p.taken <==> i in Elements(p.taken);
      assert i in p'.taken <==> i in Elements(p'.taken);
    }
    var ws := p.workers;
    var f := (i: nat) => MessageOf(ws, i);
    MapMultiset(f, p.taken, p'.taken);
    assert Map(f, p.taken) == Received(p);
    assert Map(f, p'.taken) == Received(p');
  }

  // ---------------------------------------------------------------- termination

  /** What is left to do; every step takes some of it away. */
  function Measure(s: State): int {
    Work(s.pool) + match s.phase
                   case Forking(_) => |s.pool.workers| + 2
                   case Collecting(received) => s.proxyCount - received + 1
                   case Finished => 0
  }

  lemma MeasureDrops(s: State, s': State, n: nat)
    requires StateInv(s, n) && Next(s, s')
    ensures Measure(s') < Measure(s)
  {
    CalledCount(s'.pool.workers);
    if WorkerStep(s, s') {
      StepDoesWork(s.pool, s'.pool);
    } else if ForksNext(s, s') || SkipsNext(s, s') {
      ForkDoesWork(s.pool, s'.pool, s.phase.next);
    }
  }

  lemma LastMeasure(run: seq<State>, n: nat)
    requires Run(run, n)
    ensures Measure(run[|run| - 1]) >= 0
  {
    RunKeepsStateInv(run, n, |run| - 1);
    CalledCount(run[|run| - 1].pool.workers);
  }

  /** No run has more steps than there is work, and a run that cannot go on is finished: as long as
      every proxy returns, every maximal run ends with a result. */
  lemma {:induction false} RunsAreBounded(run: seq<State>, n: nat)
    requires Run(run, n)
    ensures |run| - 1 <= |run| - 1 + Measure(run[|run| - 1]) <= Measure(Init(n))
    decreases |run|
  {
    LastMeasure(run, n);
    if |run| > 1 {
      var before := run[..|run| - 1];
      assert Run(before, n);
      RunsAreBounded(before, n);
      RunKeepsStateInv(run, n, |run| - 2);
      assert Next(run[|run| - 2], run[|run| - 2 + 1]);
      MeasureDrops(run[|run| - 2], run[|run| - 1], n);
    }
  }

  lemma {:induction false} NeverStuck(s: State, n: nat) returns (s': State)
    requires StateInv(s, n) && !s.phase.Finished?
    ensures Next(s, s')
  {
    var p := s.pool;
    if s.phase.Forking? {
      if s.phase.next < n {
        s' := s.(pool := Set(p, s.phase.next, Running), phase := Forking(s.phase.next + 1));
        assert ForksNext(s, s');
      } else {
        s' := s.(phase := Collecting(0), acc := Start(s.proxyCount));
        assert StartsCollecting(s, s');
      }
    } else if s.phase.received >= s.proxyCount {
      s' := s.(pool := p.(done := true), phase := Finished);
      assert Finishes(s, s');
    } else {
      var i := SomeoneLeft(s, n);
      if p.workers[i].Running? {
        var p' := Set(p, i, Holding(ReturnsNil));
        assert ReturnsFromCall(p, p', i, ReturnsNil);
        s' := s.(pool := p');
        assert WorkerStep(s, s');
      } else if p.workers[i].Holding? {
        var p' := HolderCanPost(p, i);
        s' := s.(pool := p');
        StepFrame(p, p');
        assert WorkerStep(s, s');
      } else {
        EverywhereParts(p, i);
        s' := TakeOne(s, n);
      }
    }
  }

  /** Some called backend has not been heard of while the collector still waits. */
  lemma SomeoneLeft(s: State, n: nat) returns (i: nat)
    requires StateInv(s, n) && s.phase.Collecting? && s.phase.received < s.proxyCount
    ensures i < n && !s.pool.workers[i].Skipped? && i !in s.pool.taken
  {
    CalledCount(s.pool.workers);
    DistinctParts(s.pool);
    DistinctCardinality(s.pool.taken);
    if Called(s.pool.workers) <= Elements(s.pool.taken) {
      SubsetCardinality(Called(s.pool.workers), Elements(s.pool.taken));
    }
    i :| i in Called(s.pool.workers) && i !in Elements(s.pool.taken);
  }

  lemma TakeOne(s: State, n: nat) returns (s': State)
    requires StateInv(s, n) && s.phase.Collecting? && s.phase.received < s.proxyCount
    requires s.pool.parts != [] || s.pool.failed != []
    ensures Collects(s, s')
  {
    var p := s.pool;
    var fromParts := p.parts != [];
    var i := if fromParts then p.parts[0] else p.failed[0];
    EverywhereParts(p, i);
    var p' := if fromParts then p.(parts := p.parts[1..], taken := p.taken + [i])
              else p.(failed := p.failed[1..], taken := p.taken + [i]);
    assert p'.taken[|p.taken|] == i;
    s' := s.(pool := p', phase := Collecting(s.phase.received + 1), acc := MergeOne(s.acc, p.workers[i].msg));
  }

  // ---------------------------------------------------------------- the collector on objects

  /** What the collector's select receives: an error or a response object. */
  datatype Arrival = Failed(err: Error) | Arrived(response: Response)

  ghost predicate Shows(a: Arrival, m: Msg)
    reads if a.Arrived? then {a.response} else {}
    reads if a.Arrived? && a.response.Data != null then {a.response.Data} else {}
  {
    match a
    case Failed(err) => m == Failure(err)
    case Arrived(r) => m == Reply(r.Value())
  }

  /** No two arrivals share a response object or a data map. */
  ghost predicate Unshared(arrivals: seq<Arrival>)
  {
    forall k, l :: 0 <= k < l < |arrivals| && arrivals[k].Arrived? && arrivals[l].Arrived? ==>
      && arrivals[k].response != arrivals[l].response
      && (arrivals[k].response.Data != null ==> arrivals[k].response.Data != arrivals[l].response.Data)
  }

  /** One turn of the collector. Whatever the accumulator holds afterwards it held before, or just
      received, or made itself. */
  method MergeArrival(acc: IncrementalMergeAccumulator, a: Arrival, ghost value: Msg)
    requires Shows(a, value)
    modifies acc, (if acc.data == null then {} else {acc.data})`IsComplete, if acc.data == null then null
      else acc.data.Data
    ensures acc.Value() == MergeOne(old(acc.Value()), value)
    ensures a.Arrived? ==> acc.errs == old(acc.errs) && a.response.IsComplete == old(a.response.IsComplete)
    ensures a.Arrived? && old(acc.data) != null ==> old(acc.data).IsComplete == old(acc.data.IsComplete)
    ensures acc.data != null ==> acc.data == old(acc.data) || fresh(acc.data) || (a.Arrived? && acc.data == a.response)
    ensures acc.data != null && acc.data.Data != null ==>
      || fresh(acc.data.Data)
      || (old(acc.data) != null && acc.data.Data == old(acc.data).Data)
      || (a.Arrived? && acc.data.Data == a.response.Data)
  {
    match a {
      case Failed(err) => acc.Merge(null, Some(err));
      case Arrived(response) => acc.Merge(response, None);
    }
  }

  /** Two accumulators that differ at most in what the data are and, once something failed, in the flag. */
  ghost predicate SameOutline(x: Acc, y: Acc) {
    && x.pending == y.pending && x.errs == y.errs && (x.data.None? <==> y.data.None?)
    && (x.data.Some? ==>
          && (x.data.value.data.None? <==> y.data.value.data.None?)
          && (x.errs == [] ==> x.data.value.complete == y.data.value.complete))
  }

  ghost predicate SameKind(m: Msg, m': Msg, flags: bool) {
    match m
    case Failure(_) => m' == m
    case NilReply => m' == m
    case Reply(r) => m'.Reply? && (r.data.None? <==> m'.resp.data.None?) && (flags ==> r.complete == m'.resp.complete)
  }

  lemma OutlineStep(x: Acc, y: Acc, m: Msg, m': Msg)
    requires SameOutline(x, y) && SameKind(m, m', x.errs == [])
    ensures SameOutline(MergeOne(x, m), MergeOne(y, m'))
  {
  }

  ghost function MsgNow(a: Arrival): (m: Msg)
    reads if a.Arrived? then {a.response} else {}
    reads if a.Arrived? && a.response.Data != null then {a.response.Data} else {}
    ensures Shows(a, m)
  {
    match a
    case Failed(err) => Failure(err)
    case Arrived(r) => Reply(r.Value())
  }

  ghost function MsgsNow(arrivals: seq<Arrival>): (ms: seq<Msg>)
    reads set k | 0 <= k < |arrivals| && arrivals[k].Arrived? :: arrivals[k].response
    reads set k | 0 <= k < |arrivals| && arrivals[k].Arrived? && arrivals[k].response.Data != null ::
      arrivals[k].response.Data
    ensures |ms| == |arrivals| && forall k :: 0 <= k < |arrivals| ==> ms[k] == MsgNow(arrivals[k])
  {
    if arrivals == [] then [] else MsgsNow(arrivals[..|arrivals| - 1]) + [MsgNow(arrivals[|arrivals| - 1])]
  }

  /** What is kept of the arrivals still to come: kind and, while nothing failed, flag; and everything, if
      arrivals share no object. */
  ghost predicate StillShows(arrivals: seq<Arrival>, ms: seq<Msg>, i: nat, flags: bool)
    requires |ms| == |arrivals|
    reads set k | 0 <= k < |arrivals| && arrivals[k].Arrived? :: arrivals[k].response
    reads set k | 0 <= k < |arrivals| && arrivals[k].Arrived? && arrivals[k].response.Data != null ::
      arrivals[k].response.Data
  {
    && (forall k :: i <= k < |arrivals| ==> SameKind(MsgNow(arrivals[k]), ms[k], flags))
    && (Unshared(arrivals) ==> forall k :: i <= k < |arrivals| ==> MsgNow(arrivals[k]) == ms[k])
  }

  /** With unshared arrivals, the accumulator holds no object of those still to come. */
  ghost predicate Apart(acc: IncrementalMergeAccumulator, arrivals: seq<Arrival>, i: nat)
    reads acc
  {
    acc.data != null ==> forall k :: i <= k < |arrivals| && arrivals[k].Arrived? ==>
      && arrivals[k].response != acc.data
      && (arrivals[k].response.Data != null ==> arrivals[k].response.Data != acc.data.Data)
  }

  /** The accumulator against a model of it, before turn i. */
  ghost predicate Tracks(acc: IncrementalMergeAccumulator, arrivals: seq<Arrival>, ms: seq<Msg>, i: nat, model: Acc)
    requires |ms| == |arrivals|
    reads acc, acc.data, if acc.data == null then null else acc.data.Data
    reads set k | 0 <= k < |arrivals| && arrivals[k].Arrived? :: arrivals[k].response
    reads set k | 0 <= k < |arrivals| && arrivals[k].Arrived? && arrivals[k].response.Data != null ::
      arrivals[k].response.Data
  {
    && SameOutline(acc.Value(), model) && StillShows(arrivals, ms, i, acc.errs == [])
    && (Unshared(arrivals) ==> acc.Value() == model && Apart(acc, arrivals, i))
  }

  lemma MergeAllStep(start: Acc, ms: seq<Msg>, i: nat)
    requires i < |ms|
    ensures MergeAll(start, ms[..i + 1]) == MergeOne(MergeAll(start, ms[..i]), ms[i])
  {
    assert ms[..i + 1][..i] == ms[..i];
  }

  /** One turn of the collector. */
  method CollectOne(acc: IncrementalMergeAccumulator, arrivals: seq<Arrival>, i: nat, ghost ms: seq<Msg>,
      ghost model: Acc)
    requires i < |arrivals| == |ms| && Tracks(acc, arrivals, ms, i, model)
    modifies acc, (if acc.data == null then {} else {acc.data})`IsComplete, if acc.data == null then null
      else acc.data.Data
    ensures Tracks(acc, arrivals, ms, i + 1, MergeOne(model, ms[i]))
    ensures acc.data != null ==>
      acc.data == old(acc.data) || fresh(acc.data) || (arrivals[i].Arrived? && acc.data == arrivals[i].response)
    ensures acc.data != null && acc.data.Data != null ==>
      || fresh(acc.data.Data)
      || (old(acc.data) != null && acc.data.Data == old(acc.data).Data)
      || (arrivals[i].Arrived? && acc.data.Data == arrivals[i].response.Data)
  {
    ghost var m := MsgNow(arrivals[i]);
    OutlineStep(acc.Value(), model, m, ms[i]);
    MergeArrival(acc, arrivals[i], m);
  }

  /** The answer of an accumulator that has this value, up to the data unless those are exact too. */
  ghost predicate AnswersAs(result: Response?, errs: seq<Error>, acc: Acc, exact: bool)
    reads result, if result == null then null else result.Data
  {
    var r := ResultOf(acc);
    && errs == acc.errs && (result == null <==> r.None?)
    && (result != null ==> result.IsComplete == r.value.complete && (result.Data == null <==> r.value.data.None?))
    && (exact && result != null ==> result.Value() == r.value)
  }

  method Conclude(acc: IncrementalMergeAccumulator, ghost model: Acc, ghost exact: bool)
      returns (result: Response?, errs: seq<Error>)
    requires SameOutline(acc.Value(), model) && (exact ==> acc.Value() == model)
    modifies (if acc.data == null then {} else {acc.data})`IsComplete
    ensures AnswersAs(result, errs, model, exact)
  {
    result, errs := acc.Result();
  }

  /** The collector's loop over the messages in the order in which it receives them. Errors, presence, flag
      and whether there are data are those of the messages as they were before, whatever the responses
      share; and if they share nothing, the objects end up with the merged values. */
  method Collect(arrivals: seq<Arrival>) returns (result: Response?, errs: seq<Error>)
    modifies set k | 0 <= k < |arrivals| && arrivals[k].Arrived? :: arrivals[k].response
    modifies set k | 0 <= k < |arrivals| && arrivals[k].Arrived? && arrivals[k].response.Data != null ::
      arrivals[k].response.Data
    ensures AnswersAs(result, errs, MergeAll(Start(|arrivals|), old(MsgsNow(arrivals))), Unshared(arrivals))
  {
    ghost var ms := MsgsNow(arrivals);
    ghost var rs := set k | 0 <= k < |arrivals| && arrivals[k].Arrived? :: arrivals[k].response;
    ghost var ds := set k | 0 <= k < |arrivals| && arrivals[k].Arrived? && arrivals[k].response.Data != null ::
      arrivals[k].response.Data;
    var acc := new IncrementalMergeAccumulator(|arrivals|);
    ghost var model := Start(|arrivals|);
    for i := 0 to |arrivals|
      invariant model == MergeAll(Start(|arrivals|), ms[..i])
      invariant Tracks(acc, arrivals, ms, i, model)
      invariant acc.data != null ==> fresh(acc.data) || acc.data in rs
      invariant acc.data != null && acc.data.Data != null ==> fresh(acc.data.Data) || acc.data.Data in ds
    {
      CollectOne(acc, arrivals, i, ms, model);
      MergeAllStep(Start(|arrivals|), ms, i);
      model := MergeOne(model, ms[i]);
    }
    assert ms[..|arrivals|] == ms;
    result, errs := Conclude(acc, model, Unshared(arrivals));
  }
}
