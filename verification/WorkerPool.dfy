/** The worker shape that `requestPart` (proxy/merging.go) and `processConcurrentCall`
    (proxy/concurrent.go) share: n goroutines, each of which calls its proxy and then posts one
    message on one of two channels of capacity n. Every step of every goroutine, and the moment at
    which the shared context is done, may come in any order. */
module WorkerPool {
  import opened Permutations
  import opened Merging

  /** What a proxy returns. */
  datatype Outcome = Fails(err: Error) | ReturnsNil | Returns(resp: Resp)

  /** One goroutine: not forked, left out by a filter, inside its proxy, about to post, or finished. */
  datatype Worker = Idle | Skipped | Running | Holding(outcome: Outcome) | Posted(msg: Msg)

  /** `parts` and `failed` list the workers whose message is in the channel; `taken` those whose message
      was received, in order. */
  datatype Pool = Pool(workers: seq<Worker>, parts: seq<nat>, failed: seq<nat>, taken: seq<nat>, done: bool)

  function AllIdle(n: nat): (ws: seq<Worker>)
    ensures |ws| == n && forall i :: 0 <= i < n ==> ws[i] == Idle
  {
    if n == 0 then [] else AllIdle(n - 1) + [Idle]
  }

  predicate NoneIdle(ws: seq<Worker>) {
    forall i :: 0 <= i < |ws| ==> !ws[i].Idle?
  }

  function InitPool(n: nat): Pool {
    Pool(AllIdle(n), [], [], [], false)
  }

  function Set(p: Pool, i: nat, w: Worker): Pool
    requires i < |p.workers|
  {
    p.(workers := p.workers[i := w])
  }

  // ---------------------------------------------------------------- steps of workers

  predicate Forks(p: Pool, p': Pool, i: nat) {
    i < |p.workers| && p.workers[i].Idle? && p' == Set(p, i, Running)
  }

  predicate Skips(p: Pool, p': Pool, i: nat) {
    i < |p.workers| && p.workers[i].Idle? && p' == Set(p, i, Skipped)
  }

  predicate ReturnsFromCall(p: Pool, p': Pool, i: nat, o: Outcome) {
    i < |p.workers| && p.workers[i].Running? && p' == Set(p, i, Holding(o))
  }

  /** The send `out <- in`, possible while the channel has room. */
  predicate PostsPart(p: Pool, p': Pool, i: nat) {
    && i < |p.workers| && p.workers[i].Holding? && p.workers[i].outcome.Returns?
    && |p.parts| < |p.workers|
    && p' == Set(p, i, Posted(Reply(p.workers[i].outcome.resp))).(parts := p.parts + [i])
  }

  /** The error a worker may send: its own, or the context's once that is done. */
  predicate Sends(p: Pool, o: Outcome, e: Error) {
    match o
    case Fails(err) => e == err
    case ReturnsNil => e == ErrNullResult
    case Returns(_) => p.done && e == ContextDone
  }

  /** A send on the error channel, possible while it has room. */
  predicate PostsError(p: Pool, p': Pool, i: nat, e: Error) {
    && i < |p.workers| && p.workers[i].Holding? && Sends(p, p.workers[i].outcome, e)
    && |p.failed| < |p.workers|
    && p' == Set(p, i, Posted(Failure(e))).(failed := p.failed + [i])
  }

  predicate ContextEnds(p: Pool, p': Pool) {
    !p.done && p' == p.(done := true)
  }

  /** A step of some goroutine, or the end of the context. */
  ghost predicate PoolStep(p: Pool, p': Pool) {
    || (exists i: nat, o :: ReturnsFromCall(p, p', i, o))
    || (exists i: nat :: PostsPart(p, p', i))
    || (exists i: nat, e :: PostsError(p, p', i, e))
    || ContextEnds(p, p')
  }

  // ---------------------------------------------------------------- steps of the collector

  predicate TakesPart(p: Pool, p': Pool) {
    p.parts != [] && p' == p.(parts := p.parts[1..], taken := p.taken + [p.parts[0]])
  }

  predicate TakesError(p: Pool, p': Pool) {
    p.failed != [] && p' == p.(failed := p.failed[1..], taken := p.taken + [p.failed[0]])
  }

  // ---------------------------------------------------------------- the invariant

  /** Everything that was ever posted, wherever it is now. */
  function Everywhere(p: Pool): seq<nat> {
    p.taken + p.failed + p.parts
  }

  /** Each worker that has posted is in exactly one place, and in the right channel. */
  ghost predicate Inv(p: Pool) {
    && Distinct(Everywhere(p))
    && (forall i :: i in Everywhere(p) ==> i < |p.workers| && p.workers[i].Posted?)
    && (forall i :: 0 <= i < |p.workers| && p.workers[i].Posted? ==> i in Everywhere(p) && !p.workers[i].msg.NilReply?)
    && (forall i :: i in p.parts ==> i in Everywhere(p) && p.workers[i].msg.Reply?)
    && (forall i :: i in p.failed ==> i in Everywhere(p) && p.workers[i].msg.Failure?)
  }

  function Placed(p: Pool): set<nat> {
    Elements(Everywhere(p))
  }

  lemma EverywhereParts(p: Pool, i: nat)
    ensures i in Everywhere(p) <==> i in p.taken || i in p.failed || i in p.parts
  {
  }

  lemma InitInv(n: nat)
    ensures Inv(InitPool(n))
  {
  }

  /** A worker that has not posted is nowhere, so posting it keeps every message in one place. */
  lemma PostKeepsInv(p: Pool, i: nat, msg: Msg, p': Pool)
    requires Inv(p) && i < |p.workers| && !p.workers[i].Posted? && !msg.NilReply?
    requires p' == Set(p, i, Posted(msg)).(parts := p.parts + if msg.Reply? then [i] else [])
                                         .(failed := p.failed + if msg.Reply? then [] else [i])
    ensures Inv(p')
  {
    assert i !in Everywhere(p);
    forall j: nat
      ensures j in Everywhere(p') <==> j in Everywhere(p) || j == i
    {
      EverywhereParts(p, j);
      EverywhereParts(p', j);
    }
    DistinctParts(p);
    assert Distinct(p'.failed) && Distinct(p'.parts);
    DistinctWhole(p');
  }

  /** No repetition in any of the three places, and no overlap between them. */
  ghost predicate ApartDistinct(p: Pool) {
    && Distinct(p.taken) && Distinct(p.failed) && Distinct(p.parts)
    && (forall i :: i in p.taken ==> i !in p.failed && i !in p.parts)
    && (forall i :: i in p.failed ==> i !in p.parts)
  }

  lemma DistinctConcat<T>(a: seq<T>, b: seq<T>)
    ensures Distinct(a + b) <==> Distinct(a) && Distinct(b) && forall x :: x in a ==> x !in b
  {
    var s := a + b;
    if Distinct(s) {
      forall i, j | 0 <= i < j < |b|
        ensures b[i] != b[j]
      {
        assert s[|a| + i] == b[i] && s[|a| + j] == b[j];
      }
      forall x | x in a
        ensures x !in b
      {
        var i :| 0 <= i < |a| && a[i] == x;
        forall j | 0 <= j < |b|
          ensures b[j] != x
        {
          assert s[i] == a[i] && s[|a| + j] == b[j];
        }
      }
      assert forall i :: 0 <= i < |a| ==> s[i] == a[i];
    } else {
      var i, j :| 0 <= i < j < |s| && s[i] == s[j];
      assert i < |a| ==> a[i] in a;
      assert j >= |a| ==> b[j - |a|] in b && s[j] == b[j - |a|];
    }
  }

  lemma DistinctParts(p: Pool)
    requires Distinct(Everywhere(p))
    ensures ApartDistinct(p)
  {
    DistinctConcat(p.taken + p.failed, p.parts);
    DistinctConcat(p.taken, p.failed);
  }

  lemma DistinctWhole(p: Pool)
    requires ApartDistinct(p)
    ensures Distinct(Everywhere(p))
  {
    DistinctConcat(p.taken, p.failed);
    DistinctConcat(p.taken + p.failed, p.parts);
  }

  /** Receiving moves a message from a channel to the collector. */
  lemma TakeKeepsInv(p: Pool, p': Pool)
    requires Inv(p) && (TakesPart(p, p') || TakesError(p, p'))
    ensures Inv(p')
  {
    DistinctParts(p);
    forall j: nat
      ensures j in Everywhere(p') <==> j in Everywhere(p)
    {
      EverywhereParts(p, j);
      EverywhereParts(p', j);
    }
    if TakesPart(p, p') {
      assert p.parts == [p.parts[0]] + p'.parts;
      DistinctConcat([p.parts[0]], p'.parts);
    } else {
      assert p.failed == [p.failed[0]] + p'.failed;
      DistinctConcat([p.failed[0]], p'.failed);
    }
    DistinctConcat(p.taken, [p'.taken[|p.taken|]]);
    DistinctWhole(p');
  }

  lemma ForkKeepsInv(p: Pool, p': Pool, i: nat)
    requires Inv(p) && (Forks(p, p', i) || Skips(p, p', i))
    ensures Inv(p')
  {
  }

  lemma StepKeepsInv(p: Pool, p': Pool)
    requires Inv(p) && PoolStep(p, p')
    ensures Inv(p') && |p'.workers| == |p.workers| && p'.taken == p.taken
  {
    if i: nat :| PostsPart(p, p', i) {
      assert p.failed + [] == p.failed;
      PostKeepsInv(p, i, Reply(p.workers[i].outcome.resp), p');
    } else if i: nat, e :| PostsError(p, p', i, e) {
      assert p.parts + [] == p.parts;
      PostKeepsInv(p, i, Failure(e), p');
    } else if i: nat, o :| ReturnsFromCall(p, p', i, o) {
    }
  }

  /** A step only ever touches a worker that is running or about to post. */
  lemma StepFrame(p: Pool, p': Pool)
    requires PoolStep(p, p')
    ensures |p'.workers| == |p.workers| && p'.taken == p.taken
    ensures forall j :: 0 <= j < |p.workers| ==>
      || p'.workers[j] == p.workers[j]
      || ((p.workers[j].Running? || p.workers[j].Holding?) && (p'.workers[j].Holding? || p'.workers[j].Posted?))
  {
  }

  // ---------------------------------------------------------------- messages and outcomes

  /** What a message says of the call that it came from: a response is exactly what the proxy returned; an
      error is the proxy's own, or stands for a nil response, or the context was done before the
      response got through. */
  predicate Explains(o: Outcome, done: bool, msg: Msg) {
    match msg
    case Reply(resp) => o == Returns(resp)
    case Failure(e) =>
      || o == Fails(e)
      || (o == ReturnsNil && e == ErrNullResult)
      || (o.Returns? && done && e == ContextDone)
    case NilReply => false
  }

  /** A step of a worker, or anything else that happens to the pool while workers stay as they are. */
  ghost predicate Moves(p: Pool, p': Pool) {
    || PoolStep(p, p') || (exists i: nat :: Forks(p, p', i) || Skips(p, p', i))
    || (p'.workers == p.workers && (p.done ==> p'.done))
  }

  /** The pool in the course of a run. */
  ghost predicate History(ps: seq<Pool>, n: nat) {
    && ps != [] && ps[0].workers == AllIdle(n)
    && forall k :: 0 <= k < |ps| - 1 ==> Moves(ps[k], ps[k + 1])
  }

  /** At some time worker i came back from its call with this outcome. */
  ghost predicate CameBack(ps: seq<Pool>, i: nat, o: Outcome) {
    exists h :: 0 <= h < |ps| && i < |ps[h].workers| && ps[h].workers[i] == Holding(o)
  }

  /** What can happen to one worker: it keeps what it came back with until it posts, and what it posted. */
  lemma MoveOfOne(p: Pool, p': Pool, i: nat)
    requires Moves(p, p') && i < |p.workers|
    ensures |p'.workers| == |p.workers| && (p.done ==> p'.done)
    ensures p.workers[i].Posted? ==> p'.workers[i] == p.workers[i]
    ensures p.workers[i].Holding? ==>
      p'.workers[i] == p.workers[i]
        || (p'.workers[i].Posted? && Explains(p.workers[i].outcome, p.done, p'.workers[i].msg))
    ensures p'.workers[i].Holding? || p'.workers[i].Posted? ==>
      p'.workers[i] == p.workers[i] || p.workers[i].Holding? || (p.workers[i].Running? && p'.workers[i].Holding?)
  {
  }

  lemma HistoryBefore(ps: seq<Pool>, n: nat)
    requires History(ps, n) && |ps| > 1
    ensures History(ps[..|ps| - 1], n) && Moves(ps[|ps| - 2], ps[|ps| - 1])
  {
    var before := ps[..|ps| - 1];
    forall k | 0 <= k < |before| - 1
      ensures Moves(before[k], before[k + 1])
    {
      assert Moves(ps[k], ps[k + 1]);
    }
    assert Moves(ps[|ps| - 2], ps[|ps| - 2 + 1]);
  }

  /** Whatever a worker has posted, it was about to post one step earlier, with an outcome that explains it. */
  lemma {:induction false} PostedFrom(ps: seq<Pool>, n: nat, i: nat) returns (h: nat, o: Outcome)
    requires History(ps, n) && i < n
    ensures |ps[|ps| - 1].workers| == n
    ensures var w := ps[|ps| - 1].workers[i];
      w.Posted? ==>
        && h < |ps| - 1 && |ps[h].workers| == |ps[h + 1].workers| == n
        && ps[h].workers[i] == Holding(o) && ps[h + 1].workers[i] == w && Explains(o, ps[h].done, w.msg)
    decreases |ps|
  {
    h, o := 0, ReturnsNil;
    var last := |ps| - 1;
    if last > 0 {
      HistoryBefore(ps, n);
      var before := ps[..last];
      h, o := PostedFrom(before, n, i);
      MoveOfOne(ps[last - 1], ps[last], i);
      if ps[last].workers[i].Posted? && !ps[last - 1].workers[i].Posted? {
        h, o := last - 1, ps[last - 1].workers[i].outcome;
      }
    }
  }

  lemma CameBackBefore(ps: seq<Pool>, i: nat, o: Outcome)
    requires ps != [] && CameBack(ps, i, o) && i < |ps[|ps| - 1].workers| && ps[|ps| - 1].workers[i] != Holding(o)
    ensures |ps| > 1 && CameBack(ps[..|ps| - 1], i, o)
  {
    var h :| 0 <= h < |ps| && i < |ps[h].workers| && ps[h].workers[i] == Holding(o);
    assert h < |ps| - 1 && ps[..|ps| - 1][h].workers[i] == Holding(o);
  }

  /** A worker comes back at most once. */
  lemma {:induction false} CameBackOnce(ps: seq<Pool>, n: nat, i: nat, o: Outcome)
    requires History(ps, n) && i < n
    ensures |ps[|ps| - 1].workers| == n
    ensures var w := ps[|ps| - 1].workers[i];
      CameBack(ps, i, o) ==>
        w == Holding(o) || (w.Posted? && exists done: bool :: Explains(o, done, w.msg))
    decreases |ps|
  {
    var last := |ps| - 1;
    if last > 0 {
      HistoryBefore(ps, n);
      var before := ps[..last];
      CameBackOnce(before, n, i, o);
      MoveOfOne(ps[last - 1], ps[last], i);
      if CameBack(ps, i, o) && ps[last].workers[i] != Holding(o) {
        CameBackBefore(ps, i, o);
        if !ps[last - 1].workers[i].Posted? {
          assert Explains(o, ps[last - 1].done, ps[last].workers[i].msg);
        }
      }
    }
  }

  lemma {:induction false} OneOutcome(ps: seq<Pool>, n: nat, i: nat, o: Outcome, o': Outcome)
    requires History(ps, n) && i < n && CameBack(ps, i, o) && CameBack(ps, i, o')
    ensures o == o'
    decreases |ps|
  {
    CameBackOnce(ps, n, i, o);
    CameBackOnce(ps, n, i, o');
    if !ps[|ps| - 1].workers[i].Holding? {
      CameBackBefore(ps, i, o);
      CameBackBefore(ps, i, o');
      HistoryBefore(ps, n);
      OneOutcome(ps[..|ps| - 1], n, i, o, o');
    }
  }

  /** The response that worker i's proxy returned got through: the context was not done in between. */
  ghost predicate Delivers(ps: seq<Pool>, i: nat, resp: Resp) {
    && ps != [] && CameBack(ps, i, Returns(resp))
    && i < |ps[|ps| - 1].workers| && ps[|ps| - 1].workers[i].Posted? && !LostToContext(ps, i)
  }

  ghost predicate LostToContext(ps: seq<Pool>, i: nat) {
    && ps != [] && i < |ps[|ps| - 1].workers|
    && ps[|ps| - 1].workers[i] == Posted(Failure(ContextDone))
    && exists resp :: CameBack(ps, i, Returns(resp))
  }

  /** The messages of the workers, told by what their proxies returned. */
  lemma {:induction false} DeliversIff(ps: seq<Pool>, n: nat, i: nat, resp: Resp)
    requires History(ps, n) && i < n
    ensures |ps[|ps| - 1].workers| == n
    ensures ps[|ps| - 1].workers[i] == Posted(Reply(resp)) <==> Delivers(ps, i, resp)
  {
    var h, o := PostedFrom(ps, n, i);
    var w := ps[|ps| - 1].workers[i];
    CameBackOnce(ps, n, i, Returns(resp));
    if w == Posted(Reply(resp)) {
      assert ps[h].workers[i] == Holding(Returns(resp));
    }
  }

  /** Why worker i failed: its proxy did, or returned nil, or its response was lost to the context. */
  ghost predicate FailedWith(ps: seq<Pool>, i: nat, e: Error) {
    || CameBack(ps, i, Fails(e))
    || (CameBack(ps, i, ReturnsNil) && e == ErrNullResult)
    || (LostToContext(ps, i) && e == ContextDone)
  }

  lemma {:induction false} FailedIff(ps: seq<Pool>, n: nat, i: nat, e: Error)
    requires History(ps, n) && i < n
    ensures |ps[|ps| - 1].workers| == n
    ensures ps[|ps| - 1].workers[i].Posted? ==>
      (ps[|ps| - 1].workers[i] == Posted(Failure(e)) <==> FailedWith(ps, i, e))
  {
    var h, o := PostedFrom(ps, n, i);
    var w := ps[|ps| - 1].workers[i];
    if w.Posted? {
      assert ps[h].workers[i] == Holding(o) && CameBack(ps, i, o);
      if o.Returns? {
        assert CameBack(ps, i, Returns(o.resp));
      }
      if CameBack(ps, i, Fails(e)) {
        OneOutcome(ps, n, i, o, Fails(e));
      }
      if CameBack(ps, i, ReturnsNil) {
        OneOutcome(ps, n, i, o, ReturnsNil);
      }
    }
  }

  /** The worker heard as the t-th delivered this response, or failed with this error. */
  ghost predicate HeardFrom(ps: seq<Pool>, t: nat, resp: Resp) {
    ps != [] && t < |ps[|ps| - 1].taken| && Delivers(ps, ps[|ps| - 1].taken[t], resp)
  }

  ghost predicate HeardFailure(ps: seq<Pool>, t: nat, e: Error) {
    ps != [] && t < |ps[|ps| - 1].taken| && FailedWith(ps, ps[|ps| - 1].taken[t], e)
  }

  lemma {:induction false} HeardIsMessage(ps: seq<Pool>, n: nat, t: nat)
    requires History(ps, n) && Inv(ps[|ps| - 1]) && |ps[|ps| - 1].workers| == n && t < |ps[|ps| - 1].taken|
    ensures var msg := MessageOf(ps[|ps| - 1].workers, ps[|ps| - 1].taken[t]);
      && (forall resp :: HeardFrom(ps, t, resp) <==> msg == Reply(resp))
      && (forall e :: HeardFailure(ps, t, e) <==> msg == Failure(e))
  {
    var p := ps[|ps| - 1];
    var i := p.taken[t];
    EverywhereParts(p, i);
    assert p.workers[i].Posted?;
    forall resp
      ensures HeardFrom(ps, t, resp) <==> MessageOf(p.workers, i) == Reply(resp)
    {
      DeliversIff(ps, n, i, resp);
    }
    forall e
      ensures HeardFailure(ps, t, e) <==> MessageOf(p.workers, i) == Failure(e)
    {
      FailedIff(ps, n, i, e);
    }
  }

  // ---------------------------------------------------------------- no send ever blocks

  /** A worker about to post always finds room in both channels, whatever the collector has done. */
  lemma SendNeverBlocks(p: Pool, i: nat)
    requires Inv(p) && i < |p.workers| && !p.workers[i].Posted?
    ensures |p.parts| + |p.failed| + |p.taken| < |p.workers|
  {
    var n := |p.workers|;
    DistinctCardinality(Everywhere(p));
    RangeElements(n);
    assert Placed(p) <= Elements(Range(n)) - {i};
    SubsetCardinality(Placed(p), Elements(Range(n)) - {i});
  }

  /** Never more than one message per worker, so never more than a channel holds. */
  lemma WithinCapacity(p: Pool)
    requires Inv(p)
    ensures |p.parts| + |p.failed| + |p.taken| <= |p.workers|
  {
    DistinctCardinality(Everywhere(p));
    RangeElements(|p.workers|);
    SubsetCardinality(Placed(p), Elements(Range(|p.workers|)));
  }

  /** So a worker that has returned from its call always has a step: its single send. */
  lemma HolderCanPost(p: Pool, i: nat) returns (p': Pool)
    requires Inv(p) && i < |p.workers| && p.workers[i].Holding?
    ensures PoolStep(p, p') && p'.workers[i].Posted?
    ensures forall j :: 0 <= j < |p.workers| && j != i ==> p'.workers[j] == p.workers[j]
  {
    SendNeverBlocks(p, i);
    var o := p.workers[i].outcome;
    if o.Returns? {
      p' := Set(p, i, Posted(Reply(o.resp))).(parts := p.parts + [i]);
      assert PostsPart(p, p', i);
    } else {
      var e := if o.Fails? then o.err else ErrNullResult;
      p' := Set(p, i, Posted(Failure(e))).(failed := p.failed + [i]);
      assert PostsError(p, p', i, e);
    }
  }

  // ---------------------------------------------------------------- progress of the workers

  function Rank(w: Worker): nat {
    match w
    case Idle => 3
    case Running => 2
    case Holding(_) => 1
    case Skipped => 0
    case Posted(_) => 0
  }

  function RankSum(ws: seq<Worker>): nat {
    if ws == [] then 0 else Rank(ws[0]) + RankSum(ws[1..])
  }

  lemma {:induction false} RankSumUpdate(ws: seq<Worker>, i: nat, w: Worker)
    requires i < |ws|
    ensures RankSum(ws[i := w]) == RankSum(ws) - Rank(ws[i]) + Rank(w)
    decreases |ws|
  {
    if i == 0 {
      assert ws[0 := w][1..] == ws[1..];
    } else {
      RankSumUpdate(ws[1..], i - 1, w);
      assert ws[i := w][1..] == ws[1..][i - 1 := w];
    }
  }

  /** What is left to do for workers and context. */
  function Work(p: Pool): nat {
    RankSum(p.workers) + if p.done then 0 else 1
  }

  lemma StepDoesWork(p: Pool, p': Pool)
    requires PoolStep(p, p')
    ensures Work(p') < Work(p)
  {
    if i: nat :| PostsPart(p, p', i) {
      RankSumUpdate(p.workers, i, p'.workers[i]);
    } else if i: nat, e :| PostsError(p, p', i, e) {
      RankSumUpdate(p.workers, i, p'.workers[i]);
    } else if i: nat, o :| ReturnsFromCall(p, p', i, o) {
      RankSumUpdate(p.workers, i, p'.workers[i]);
    }
  }

  lemma ForkDoesWork(p: Pool, p': Pool, i: nat)
    requires Forks(p, p', i) || Skips(p, p', i)
    ensures Work(p') < Work(p)
  {
    RankSumUpdate(p.workers, i, p'.workers[i]);
  }

  /** What worker i posted (nil, which no worker posts, if it has not). */
  function MessageOf(ws: seq<Worker>, i: nat): Msg {
    if i < |ws| && ws[i].Posted? then ws[i].msg else NilReply
  }

  /** The messages received so far. */
  function Received(p: Pool): (ms: seq<Msg>)
    ensures |ms| == |p.taken| && forall k :: 0 <= k < |ms| ==> ms[k] == MessageOf(p.workers, p.taken[k])
  {
    seq(|p.taken|, k requires 0 <= k < |p.taken| => MessageOf(p.workers, p.taken[k]))
  }
}
