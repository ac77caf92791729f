/** Any number of requests, each cloned any number of times by `CloneRequest` (proxy/request.go), at the same
    time: every call after a request's first reads the very slice that the call before left it with. The calls
    share one pool of buffers, and every read and copy of a single byte may be followed by a step of
    a call for any other request. */
module ClonePool {
  import opened Permutations

  type Bytes = seq<int>

  /** A request: its body, and how many clones of it are made, one after the other. */
  datatype Job = Job(body: Bytes, clones: nat)

  /** The room for which `ReadFrom` makes the buffer grow. */
  const MIN_READ := 512

  /** Where request k's current call is; `Entered` also between calls. `b` is its buffer; the slices it copies
      into are numbered like all slices. */
  datatype Call =
    | Entered
    | Got(b: nat)
    | Reading(b: nat)
    | CopyingOriginal(b: nat, original: nat, done: nat)
    | CopyingClone(b: nat, original: nat, clone: nat, done: nat)

  /** A buffer writes to one slice, of which it uses the first `len` bytes. */
  datatype Buffer = Buffer(store: nat, len: nat)

  /** For the record only, no step looks at it: what a slice was made for, the n-th of its kind for
      request k, and who has a buffer. */
  datatype Purpose = StoreOf(b: nat) | OriginalOf(k: nat, n: nat) | CloneOf(k: nat, n: nat)
  datatype Holder = InPool | HeldBy(k: nat)

  /** `body` is the slice that each request's body reads from, `made` the slices of its clones. */
  datatype State = State(
    calls: seq<Call>, buffers: seq<Buffer>, slices: seq<Bytes>, free: set<nat>, body: seq<nat>, made: seq<seq<nat>>,
    purpose: seq<Purpose>, holder: seq<Holder>)

  function Init(jobs: seq<Job>): State {
    var n := |jobs|;
    State(seq(n, k => Entered), [], seq(n, k requires 0 <= k < n => jobs[k].body), {}, seq(n, k => k), seq(n, k => []),
          seq(n, k requires 0 <= k < n => OriginalOf(k, 0)), [])
  }

  function Zeros(n: nat): (s: Bytes)
    ensures |s| == n
  {
    if n == 0 then [] else Zeros(n - 1) + [0]
  }

  // ---------------------------------------------------------------- the steps of call k

  predicate At(jobs: seq<Job>, s: State, k: nat) {
    k < |s.calls| == |s.body| == |s.made| == |jobs|
  }

  /** The pool hands out one of its buffers. */
  ghost predicate Gets(jobs: seq<Job>, s: State, s': State, k: nat, b: nat) {
    && At(jobs, s, k) && s.calls[k].Entered? && |s.made[k]| < jobs[k].clones && b in s.free && b < |s.holder|
    && s' == s.(calls := s.calls[k := Got(b)], free := s.free - {b}, holder := s.holder[b := HeldBy(k)])
  }

  /** Or makes a new one. */
  ghost predicate GetsNew(jobs: seq<Job>, s: State, s': State, k: nat) {
    && At(jobs, s, k) && s.calls[k].Entered? && |s.made[k]| < jobs[k].clones
    && s' == s.(calls := s.calls[k := Got(|s.buffers|)], buffers := s.buffers + [Buffer(|s.slices|, 0)],
       slices := s.slices + [[]],
                purpose := s.purpose + [StoreOf(|s.buffers|)], holder := s.holder + [HeldBy(k)])
  }

  ghost predicate Resets(jobs: seq<Job>, s: State, s': State, k: nat) {
    && At(jobs, s, k) && s.calls[k].Got? && s.calls[k].b < |s.buffers|
    && s' == s.(calls := s.calls[k := Reading(s.calls[k].b)],
                buffers := s.buffers[s.calls[k].b := s.buffers[s.calls[k].b].(len := 0)])
  }

  /** One more byte of the body, whatever its slice holds now, is stored where there is room. */
  ghost predicate ReadsByte(jobs: seq<Job>, s: State, s': State, k: nat) {
    && At(jobs, s, k) && s.calls[k].Reading? && s.calls[k].b < |s.buffers| && s.body[k] < |s.slices|
    && var b, source := s.calls[k].b, s.slices[s.body[k]];
      var Buffer(store, len) := s.buffers[b];
      && len < |source| && store < |s.slices| && len < |s.slices[store]|
      && s' == s.(buffers := s.buffers[b := Buffer(store, len + 1)],
                  slices := s.slices[store := s.slices[store][len := source[len]]])
  }

  /** The buffer has little room left and moves to a longer slice with the same bytes. */
  ghost predicate Grows(jobs: seq<Job>, s: State, s': State, k: nat, longer: Bytes) {
    && At(jobs, s, k) && s.calls[k].Reading? && s.calls[k].b < |s.buffers|
    && var b := s.calls[k].b;
      var Buffer(store, len) := s.buffers[b];
      && store < |s.slices| && len <= |s.slices[store]| < len + MIN_READ <= |longer|
         && longer[..len] == s.slices[store][..len]
      && s' == s.(buffers := s.buffers[b := Buffer(|s.slices|, len)], slices := s.slices + [longer],
         purpose := s.purpose + [StoreOf(b)])
  }

  /** The body is at its end; the first of the two copies is made. */
  ghost predicate EndsReading(jobs: seq<Job>, s: State, s': State, k: nat) {
    && At(jobs, s, k) && s.calls[k].Reading? && s.calls[k].b < |s.buffers| && s.body[k] < |s.slices|
    && var b := s.calls[k].b;
      && s.buffers[b].len == |s.slices[s.body[k]]|
      && s' == s.(calls := s.calls[k := CopyingOriginal(b, |s.slices|, 0)],
         slices := s.slices + [Zeros(s.buffers[b].len)],
                  purpose := s.purpose + [OriginalOf(k, |s.made[k]| + 1)])
  }

  /** One byte of the buffer, whatever it holds now, goes into slice `to`. */
  ghost predicate CopiesInto(s: State, slices': seq<Bytes>, b: nat, to: nat, done: nat) {
    && b < |s.buffers| && s.buffers[b].store < |s.slices| && done < |s.slices[s.buffers[b].store]|
    && to < |s.slices| && done < |s.slices[to]|
    && slices' == s.slices[to := s.slices[to][done := s.slices[s.buffers[b].store][done]]]
  }

  ghost predicate CopiesOriginal(jobs: seq<Job>, s: State, s': State, k: nat) {
    && At(jobs, s, k) && s.calls[k].CopyingOriginal?
    && var c := s.calls[k];
      && CopiesInto(s, s'.slices, c.b, c.original, c.done)
      && s' == s.(calls := s.calls[k := CopyingOriginal(c.b, c.original, c.done + 1)], slices := s'.slices)
  }

  ghost predicate StartsClone(jobs: seq<Job>, s: State, s': State, k: nat) {
    && At(jobs, s, k) && s.calls[k].CopyingOriginal?
    && var c := s.calls[k];
      && c.original < |s.slices| && c.done == |s.slices[c.original]| && c.b < |s.buffers|
      && s' == s.(calls := s.calls[k := CopyingClone(c.b, c.original, |s.slices|, 0)],
                  slices := s.slices + [Zeros(s.buffers[c.b].len)], purpose := s.purpose + [CloneOf(k, |s.made[k]|)])
  }

  ghost predicate CopiesClone(jobs: seq<Job>, s: State, s': State, k: nat) {
    && At(jobs, s, k) && s.calls[k].CopyingClone?
    && var c := s.calls[k];
      && CopiesInto(s, s'.slices, c.b, c.clone, c.done)
      && s' == s.(calls := s.calls[k := CopyingClone(c.b, c.original, c.clone, c.done + 1)], slices := s'.slices)
  }

  /** Request and clone get their bodies, and the buffer goes back to the pool, with everything it holds. */
  ghost predicate Puts(jobs: seq<Job>, s: State, s': State, k: nat) {
    && At(jobs, s, k) && s.calls[k].CopyingClone?
    && var c := s.calls[k];
      && c.clone < |s.slices| && c.done == |s.slices[c.clone]| && c.b < |s.holder|
      && s' == s.(calls := s.calls[k := Entered], body := s.body[k := c.original],
         made := s.made[k := s.made[k] + [c.clone]],
                  free := s.free + {c.b}, holder := s.holder[c.b := InPool])
  }

  ghost predicate Step(jobs: seq<Job>, s: State, s': State, k: nat) {
    || (exists b: nat :: Gets(jobs, s, s', k, b)) || GetsNew(jobs, s, s', k) || Resets(jobs, s, s', k)
    || ReadsByte(jobs, s, s', k) || (exists longer :: Grows(jobs, s, s', k, longer)) || EndsReading(jobs, s, s', k)
    || CopiesOriginal(jobs, s, s', k) || StartsClone(jobs, s, s', k) || CopiesClone(jobs, s, s', k)
       || Puts(jobs, s, s', k)
  }

  // ---------------------------------------------------------------- the invariant

  /** A buffer is in the pool or with one call, and has a slice of its own. */
  ghost predicate BufferOk(s: State, b: nat)
    requires b < |s.buffers| == |s.holder| && |s.purpose| == |s.slices|
  {
    && (b in s.free <==> s.holder[b] == InPool)
    && s.buffers[b].store < |s.slices| && s.purpose[s.buffers[b].store] == StoreOf(b)
    && s.buffers[b].len <= |s.slices[s.buffers[b].store]|
  }

  ghost predicate CopyOk(s: State, a: nat, p: Purpose, body: Bytes, done: nat)
    requires |s.purpose| == |s.slices|
  {
    a < |s.slices| && s.purpose[a] == p && |s.slices[a]| == |body| && done <= |body|
      && s.slices[a][..done] == body[..done]
  }

  /** The bytes call k has of its body, in its buffer. */
  ghost predicate BufferHas(s: State, b: nat, body: Bytes, n: nat)
    requires b < |s.buffers| == |s.holder| && |s.purpose| == |s.slices| && BufferOk(s, b)
  {
    s.buffers[b].len == n <= |body| && s.slices[s.buffers[b].store][..n] == body[..n]
  }

  /** The body of request k and the clones made so far hold its bytes. */
  ghost predicate BodiesOk(s: State, k: nat, job: Job)
    requires k < |s.body| == |s.made| && |s.purpose| == |s.slices|
  {
    && CopyOk(s, s.body[k], OriginalOf(k, |s.made[k]|), job.body, |job.body|)
    && forall i :: 0 <= i < |s.made[k]| ==> CopyOk(s, s.made[k][i], CloneOf(k, i), job.body, |job.body|)
  }

  ghost predicate CallOk(s: State, k: nat, job: Job)
    requires k < |s.calls| == |s.body| == |s.made| && |s.buffers| == |s.holder| && |s.purpose| == |s.slices|
    requires forall b :: 0 <= b < |s.buffers| ==> BufferOk(s, b)
  {
    var c, body, n := s.calls[k], job.body, |s.made[k]|;
    && (!c.Entered? ==> c.b < |s.buffers| && s.holder[c.b] == HeldBy(k))
    && (if c.Entered? then n <= job.clones else n < job.clones)
    && match c
       case Entered => true
       case Got(_) => true
       case Reading(b) => s.buffers[b].len <= |body| && BufferHas(s, b, body, s.buffers[b].len)
       case CopyingOriginal(b, original, done) => BufferHas(s, b, body, |body|)
         && CopyOk(s, original, OriginalOf(k, n + 1), body, done)
       case CopyingClone(b, original, clone, done) =>
         && BufferHas(s, b, body, |body|) && CopyOk(s, original, OriginalOf(k, n + 1), body, |body|)
         && CopyOk(s, clone, CloneOf(k, n), body, done)
  }

  ghost predicate Inv(jobs: seq<Job>, s: State) {
    && |s.calls| == |s.body| == |s.made| == |jobs| && BuffersOk(s)
    && (forall k :: 0 <= k < |s.calls| ==> CallOk(s, k, jobs[k]) && BodiesOk(s, k, jobs[k]))
  }

  ghost predicate BuffersOk(s: State) {
    && |s.buffers| == |s.holder| && |s.purpose| == |s.slices|
    && (forall b :: b in s.free ==> b < |s.buffers|)
    && (forall b :: 0 <= b < |s.buffers| ==> BufferOk(s, b))
  }

  lemma InitInv(jobs: seq<Job>)
    ensures Inv(jobs, Init(jobs))
  {
    var s := Init(jobs);
    forall k | 0 <= k < |jobs|
      ensures CallOk(s, k, jobs[k]) && BodiesOk(s, k, jobs[k])
    {
      assert s.slices[k] == jobs[k].body && s.purpose[k] == OriginalOf(k, 0) && s.body[k] == k && s.made[k] == [];
    }
  }

  // ---------------------------------------------------------------- every step keeps it

  /** The slices and buffers that belong to request k. */
  ghost predicate Owns(s: State, k: nat, p: Purpose) {
    match p
    case StoreOf(b) => b < |s.holder| && s.holder[b] == HeldBy(k)
    case OriginalOf(j, _) => j == k
    case CloneOf(j, _) => j == k
  }

  /** A step of a call for request k changes nothing that belongs to another request. */
  ghost predicate Local(s: State, s': State, k: nat) {
    && |s.purpose| == |s.slices| && |s.buffers| == |s.holder| && |s'.purpose| == |s'.slices|
       && |s'.buffers| == |s'.holder|
    && |s'.calls| == |s.calls| == |s'.body| == |s.body| == |s'.made| == |s.made|
    && (forall j :: 0 <= j < |s.calls| && j != k ==>
       s'.calls[j] == s.calls[j] && s'.body[j] == s.body[j] && s'.made[j] == s.made[j])
    && s.purpose <= s'.purpose
    && (forall a :: 0 <= a < |s.slices| && s'.slices[a] != s.slices[a] ==> Owns(s, k, s.purpose[a]))
    && |s.buffers| <= |s'.buffers|
    && (forall b :: 0 <= b < |s.buffers| && s'.buffers[b] != s.buffers[b] ==> s.holder[b] == HeldBy(k))
    && (forall b :: 0 <= b < |s.holder| && s'.holder[b] != s.holder[b] ==>
       s.holder[b] == HeldBy(k) || s.holder[b] == InPool)
  }

  lemma OtherStays(s: State, s': State, k: nat, j: nat, job: Job)
    requires BuffersOk(s) && BuffersOk(s') && Local(s, s', k) && j != k && j < |s.calls| && CallOk(s, j, job)
    ensures CallOk(s', j, job)
  {
    var c := s.calls[j];
    if !c.Entered? {
      assert BufferOk(s, c.b) && s'.buffers[c.b] == s.buffers[c.b] && s'.holder[c.b] == HeldBy(j);
      assert s'.slices[s.buffers[c.b].store] == s.slices[s.buffers[c.b].store];
    }
  }

  /** The slice of request j's body, or of one of its clones. */
  predicate BodyPurpose(s: State, j: nat, p: Purpose)
    requires j < |s.made|
  {
    p == OriginalOf(j, |s.made[j]|) || (p.CloneOf? && p.k == j && p.n < |s.made[j]|)
  }

  lemma BodiesStay(s: State, s': State, j: nat, job: Job)
    requires |s.purpose| == |s.slices| && |s'.purpose| == |s'.slices| && s.purpose <= s'.purpose
    requires j < |s.body| == |s.made| == |s'.body| == |s'.made| && s'.body[j] == s.body[j] && s'.made[j] == s.made[j]
    requires forall a :: 0 <= a < |s.slices| && s'.slices[a] != s.slices[a] ==> !BodyPurpose(s, j, s.purpose[a])
    requires BodiesOk(s, j, job)
    ensures BodiesOk(s', j, job)
  {
    assert s'.slices[s.body[j]] == s.slices[s.body[j]];
    forall i | 0 <= i < |s.made[j]|
      ensures CopyOk(s', s'.made[j][i], CloneOf(j, i), job.body, |job.body|)
    {
      assert CopyOk(s, s.made[j][i], CloneOf(j, i), job.body, |job.body|);
    }
  }

  lemma InvFrom(jobs: seq<Job>, s: State, s': State, k: nat)
    requires Inv(jobs, s) && k < |s.calls| && Local(s, s', k) && BuffersOk(s')
    requires CallOk(s', k, jobs[k]) && BodiesOk(s', k, jobs[k])
    ensures Inv(jobs, s')
  {
    forall j | 0 <= j < |s'.calls|
      ensures CallOk(s', j, jobs[j]) && BodiesOk(s', j, jobs[j])
    {
      if j != k {
        OtherStays(s, s', k, j, jobs[j]);
        BodiesStay(s, s', j, jobs[j]);
      }
    }
  }

  lemma GetKeeps(jobs: seq<Job>, s: State, s': State, k: nat, b: nat)
    requires Inv(jobs, s) && (Gets(jobs, s, s', k, b) || GetsNew(jobs, s, s', k) || Resets(jobs, s, s', k))
    ensures Inv(jobs, s') && Local(s, s', k)
  {
    if Gets(jobs, s, s', k, b) {
      assert BufferOk(s, b);
    }
    assert CallOk(s, k, jobs[k]);
    assert BuffersOk(s') by {
      forall c | 0 <= c < |s'.buffers|
        ensures BufferOk(s', c)
      {
        assert c < |s.buffers| ==> BufferOk(s, c);
      }
    }
    BodiesStay(s, s', k, jobs[k]);
    InvFrom(jobs, s, s', k);
  }

  lemma ReadKeeps(jobs: seq<Job>, s: State, s': State, k: nat)
    requires Inv(jobs, s) && ReadsByte(jobs, s, s', k)
    ensures Inv(jobs, s') && Local(s, s', k)
  {
    assert CallOk(s, k, jobs[k]) && BufferOk(s, s.calls[k].b);
    assert BodiesOk(s, k, jobs[k]);
    assert BuffersOk(s') by {
      forall c | 0 <= c < |s'.buffers|
        ensures BufferOk(s', c)
      {
        assert BufferOk(s, c);
      }
    }
    BodiesStay(s, s', k, jobs[k]);
    InvFrom(jobs, s, s', k);
  }

  lemma GrowKeeps(jobs: seq<Job>, s: State, s': State, k: nat, longer: Bytes)
    requires Inv(jobs, s) && Grows(jobs, s, s', k, longer)
    ensures Inv(jobs, s') && Local(s, s', k)
  {
    assert CallOk(s, k, jobs[k]) && BufferOk(s, s.calls[k].b);
    assert BuffersOk(s') by {
      forall c | 0 <= c < |s'.buffers|
        ensures BufferOk(s', c)
      {
        assert BufferOk(s, c);
      }
    }
    BodiesStay(s, s', k, jobs[k]);
    InvFrom(jobs, s, s', k);
  }

  lemma AllocKeeps(jobs: seq<Job>, s: State, s': State, k: nat)
    requires Inv(jobs, s) && (EndsReading(jobs, s, s', k) || StartsClone(jobs, s, s', k))
    ensures Inv(jobs, s') && Local(s, s', k)
  {
    assert CallOk(s, k, jobs[k]) && BufferOk(s, s.calls[k].b);
    assert BodiesOk(s, k, jobs[k]);
    assert BuffersOk(s') by {
      forall c | 0 <= c < |s'.buffers|
        ensures BufferOk(s', c)
      {
        assert BufferOk(s, c);
      }
    }
    BodiesStay(s, s', k, jobs[k]);
    InvFrom(jobs, s, s', k);
  }

  lemma CopyKeeps(jobs: seq<Job>, s: State, s': State, k: nat)
    requires Inv(jobs, s) && (CopiesOriginal(jobs, s, s', k) || CopiesClone(jobs, s, s', k))
    ensures Inv(jobs, s') && Local(s, s', k)
  {
    assert CallOk(s, k, jobs[k]) && BufferOk(s, s.calls[k].b);
    assert BuffersOk(s') by {
      forall c | 0 <= c < |s'.buffers|
        ensures BufferOk(s', c)
      {
        assert BufferOk(s, c);
      }
    }
    BodiesStay(s, s', k, jobs[k]);
    InvFrom(jobs, s, s', k);
  }

  /** The new bodies take the place of the old one and the last of the clones. */
  lemma PutKeeps(jobs: seq<Job>, s: State, s': State, k: nat)
    requires Inv(jobs, s) && Puts(jobs, s, s', k)
    ensures Inv(jobs, s') && Local(s, s', k)
  {
    assert CallOk(s, k, jobs[k]) && BodiesOk(s, k, jobs[k]);
    assert BuffersOk(s') by {
      forall c | 0 <= c < |s'.buffers|
        ensures BufferOk(s', c)
      {
        assert BufferOk(s, c);
      }
    }
    forall i | 0 <= i < |s'.made[k]|
      ensures CopyOk(s', s'.made[k][i], CloneOf(k, i), jobs[k].body, |jobs[k].body|)
    {
      assert i < |s.made[k]| ==> CopyOk(s, s.made[k][i], CloneOf(k, i), jobs[k].body, |jobs[k].body|);
    }
    InvFrom(jobs, s, s', k);
  }

  /** Every step of every call keeps the invariant. */
  lemma StepKeeps(jobs: seq<Job>, s: State, s': State, k: nat)
    requires Inv(jobs, s) && Step(jobs, s, s', k)
    ensures Inv(jobs, s') && Local(s, s', k)
  {
    if b: nat :| Gets(jobs, s, s', k, b) {
      GetKeeps(jobs, s, s', k, b);
    } else if GetsNew(jobs, s, s', k) || Resets(jobs, s, s', k) {
      GetKeeps(jobs, s, s', k, 0);
    } else if ReadsByte(jobs, s, s', k) {
      ReadKeeps(jobs, s, s', k);
    } else if longer :| Grows(jobs, s, s', k, longer) {
      GrowKeeps(jobs, s, s', k, longer);
    } else if EndsReading(jobs, s, s', k) || StartsClone(jobs, s, s', k) {
      AllocKeeps(jobs, s, s', k);
    } else if Puts(jobs, s, s', k) {
      PutKeeps(jobs, s, s', k);
    } else {
      CopyKeeps(jobs, s, s', k);
    }
  }

  // ---------------------------------------------------------------- runs

  ghost predicate SomeStep(jobs: seq<Job>, s: State, s': State) {
    exists k: nat :: Step(jobs, s, s', k)
  }

  /** An interleaving of the calls, from an empty pool. */
  ghost predicate Run(jobs: seq<Job>, states: seq<State>) {
    && states != [] && states[0] == Init(jobs)
    && forall i :: 0 <= i < |states| - 1 ==> SomeStep(jobs, states[i], states[i + 1])
  }

  lemma SomeStepKeeps(jobs: seq<Job>, s: State, s': State)
    requires Inv(jobs, s) && SomeStep(jobs, s, s')
    ensures Inv(jobs, s')
  {
    var k: nat :| Step(jobs, s, s', k);
    StepKeeps(jobs, s, s', k);
  }

  lemma RunBefore(jobs: seq<Job>, states: seq<State>)
    requires Run(jobs, states) && |states| > 1
    ensures Run(jobs, states[..|states| - 1]) && SomeStep(jobs, states[|states| - 2], states[|states| - 1])
  {
    var n := |states| - 1;
    var before := states[..n];
    forall i | 0 <= i < n - 1
      ensures SomeStep(jobs, before[i], before[i + 1])
    {
      assert SomeStep(jobs, states[i], states[i + 1]);
    }
    assert SomeStep(jobs, states[n - 1], states[n - 1 + 1]);
  }

  lemma {:induction false} RunKeeps(jobs: seq<Job>, states: seq<State>)
    requires Run(jobs, states)
    ensures Inv(jobs, states[|states| - 1])
    decreases |states|
  {
    var n := |states| - 1;
    if n == 0 {
      InitInv(jobs);
    } else {
      RunBefore(jobs, states);
      RunKeeps(jobs, states[..n]);
      SomeStepKeeps(jobs, states[n - 1], states[n]);
    }
  }

  /** The slices of request k's body and of all its clones so far. */
  function BodySlices(s: State, k: nat): seq<nat>
    requires k < |s.body| == |s.made|
  {
    [s.body[k]] + s.made[k]
  }

  /** In every state of every interleaving, whichever calls are under way: the body of a request and all clones
      made of it so far have exactly the bytes with which the request came; no buffer, pooled or in use,
      writes to any of their slices; and no two of them are the same slice, within a request or across two. */
  lemma {:induction false} ClonesAreFaithful(jobs: seq<Job>, states: seq<State>, k: nat, j: nat)
    requires Run(jobs, states) && k < |jobs| && j < |jobs|
    ensures var s := states[|states| - 1];
      && |s.body| == |s.made| == |jobs| && |s.made[k]| <= jobs[k].clones
      && (forall a :: a in BodySlices(s, k) ==> a < |s.slices| && s.slices[a] == jobs[k].body)
      && (forall b :: 0 <= b < |s.buffers| ==> s.buffers[b].store !in BodySlices(s, k))
      && Distinct(BodySlices(s, k))
      && (j != k ==> Elements(BodySlices(s, k)) !! Elements(BodySlices(s, j)))
  {
    RunKeeps(jobs, states);
    var s := states[|states| - 1];
    assert CallOk(s, k, jobs[k]);
    BodyPurposes(s, k, jobs[k]);
    BodyPurposes(s, j, jobs[j]);
    forall b | 0 <= b < |s.buffers|
      ensures s.buffers[b].store !in BodySlices(s, k)
    {
      assert BufferOk(s, b);
    }
  }

  /** The slices of a request's bodies are told apart by what they were made for. */
  lemma BodyPurposes(s: State, k: nat, job: Job)
    requires k < |s.body| == |s.made| && |s.purpose| == |s.slices| && BodiesOk(s, k, job)
    ensures forall a :: a in BodySlices(s, k) ==>
      a < |s.slices| && s.slices[a] == job.body && !s.purpose[a].StoreOf? && s.purpose[a].k == k
    ensures Distinct(BodySlices(s, k))
  {
    var all := BodySlices(s, k);
    forall i | 0 <= i < |all|
      ensures all[i] < |s.slices| && s.slices[all[i]] == job.body
      ensures s.purpose[all[i]] == if i == 0 then OriginalOf(k, |s.made[k]|) else CloneOf(k, i - 1)
    {
      assert i > 0 ==> CopyOk(s, s.made[k][i - 1], CloneOf(k, i - 1), job.body, |job.body|);
    }
  }

  // ---------------------------------------------------------------- progress

  /** A request that does not have all its clones can always take a step: no call waits for another. */
  lemma NeverStuck(jobs: seq<Job>, s: State, k: nat)
    requires Inv(jobs, s) && k < |jobs| && |s.made[k]| < jobs[k].clones
    ensures exists s' :: Step(jobs, s, s', k)
  {
    assert CallOk(s, k, jobs[k]);
    var c, body, n := s.calls[k], jobs[k].body, |s.made[k]|;
    assert !c.Entered? ==> BufferOk(s, c.b);
    match c {
      case Entered =>
        var s' := s.(calls := s.calls[k := Got(|s.buffers|)], buffers := s.buffers + [Buffer(|s.slices|, 0)],
          slices := s.slices + [[]],
                     purpose := s.purpose + [StoreOf(|s.buffers|)], holder := s.holder + [HeldBy(k)]);
        assert Step(jobs, s, s', k);
      case Got(b) =>
        var s' := s.(calls := s.calls[k := Reading(b)], buffers := s.buffers[b := s.buffers[b].(len := 0)]);
        assert Step(jobs, s, s', k);
      case Reading(b) =>
        ReadingGoesOn(jobs, s, k);
      case CopyingOriginal(b, original, done) =>
        if done < |body| {
          var slices' := s.slices[original := s.slices[original][done := s.slices[s.buffers[b].store][done]]];
          var s' := s.(calls := s.calls[k := CopyingOriginal(b, original, done + 1)], slices := slices');
          assert Step(jobs, s, s', k);
        } else {
          var s' := s.(calls := s.calls[k := CopyingClone(b, original, |s.slices|, 0)],
                       slices := s.slices + [Zeros(s.buffers[b].len)], purpose := s.purpose + [CloneOf(k, n)]);
          assert Step(jobs, s, s', k);
        }
      case CopyingClone(b, original, clone, done) =>
        if done < |body| {
          var slices' := s.slices[clone := s.slices[clone][done := s.slices[s.buffers[b].store][done]]];
          var s' := s.(calls := s.calls[k := CopyingClone(b, original, clone, done + 1)], slices := slices');
          assert Step(jobs, s, s', k);
        } else {
          var s' := s.(calls := s.calls[k := Entered], body := s.body[k := original],
            made := s.made[k := s.made[k] + [clone]],
                       free := s.free + {b}, holder := s.holder[b := InPool]);
          assert Step(jobs, s, s', k);
        }
    }
  }

  lemma ReadingGoesOn(jobs: seq<Job>, s: State, k: nat)
    requires Inv(jobs, s) && k < |s.calls| && s.calls[k].Reading?
    ensures exists s' :: Step(jobs, s, s', k)
  {
    assert CallOk(s, k, jobs[k]) && BodiesOk(s, k, jobs[k]);
    var b, body := s.calls[k].b, jobs[k].body;
    var Buffer(store, len) := s.buffers[b];
    assert BufferOk(s, b);
    if len == |body| {
      var s' := s.(calls := s.calls[k := CopyingOriginal(b, |s.slices|, 0)], slices := s.slices + [Zeros(len)],
                   purpose := s.purpose + [OriginalOf(k, |s.made[k]| + 1)]);
      assert Step(jobs, s, s', k);
    } else if len < |s.slices[store]| {
      var s' := s.(buffers := s.buffers[b := Buffer(store, len + 1)],
                   slices := s.slices[store := s.slices[store][len := s.slices[s.body[k]][len]]]);
      assert Step(jobs, s, s', k);
    } else {
      var longer := s.slices[store] + Zeros(MIN_READ);
      var s' := s.(buffers := s.buffers[b := Buffer(|s.slices|, len)], slices := s.slices + [longer],
        purpose := s.purpose + [StoreOf(b)]);
      assert Grows(jobs, s, s', k, longer) && Step(jobs, s, s', k);
    }
  }

  /** The steps that one call may take on a body of the given length: every byte is read once and copied
      twice, and the buffer grows at most once before each byte and before the end. */
  function Cost(length: nat): nat {
    4 * length + 6
  }

  function Times(n: nat, cost: nat): nat {
    if n == 0 then 0 else Times(n - 1, cost) + cost
  }

  /** What the call under way may still take. */
  function Left(s: State, k: nat, length: nat): int
    requires k < |s.calls|
  {
    match s.calls[k]
    case Entered => 0
    case Got(_) => 4 * length + 5
    case Reading(b) => 2 * length + 3 + ReadLeft(s, b, length)
    case CopyingOriginal(_, _, done) => length - done + length + 2
    case CopyingClone(_, _, _, done) => length - done + 1
  }

  function ReadLeft(s: State, b: nat, length: nat): int {
    if b < |s.buffers| && s.buffers[b].store < |s.slices| then
      var Buffer(store, len) := s.buffers[b];
      2 * (length - len) + if |s.slices[store]| - len < MIN_READ then 1 else 0
    else 0
  }

  /** What is left to do for request k. */
  function Work(jobs: seq<Job>, s: State, k: nat): int
    requires k < |s.calls| == |s.made| == |jobs|
  {
    var length, rest := |jobs[k].body|, jobs[k].clones - |s.made[k]|;
    if s.calls[k].Entered? then (if rest >= 0 then Times(rest, Cost(length)) else 0)
    else (if rest >= 1 then Times(rest - 1, Cost(length)) else 0) + Left(s, k, length)
  }

  function Measure(jobs: seq<Job>, s: State, n: nat): int
    requires n <= |s.calls| == |s.made| == |jobs|
  {
    if n == 0 then 0 else Measure(jobs, s, n - 1) + Work(jobs, s, n - 1)
  }

  lemma GetDrops(jobs: seq<Job>, s: State, s': State, k: nat, b: nat)
    requires Inv(jobs, s) && (Gets(jobs, s, s', k, b) || GetsNew(jobs, s, s', k) || Resets(jobs, s, s', k))
    ensures k < |s.calls| && k < |s'.calls| == |s'.made| == |jobs| && Work(jobs, s', k) < Work(jobs, s, k)
  {
    assert CallOk(s, k, jobs[k]) && BodiesOk(s, k, jobs[k]);
    assert !s.calls[k].Entered? ==> BufferOk(s, s.calls[k].b);
  }

  lemma ReadDrops(jobs: seq<Job>, s: State, s': State, k: nat, longer: Bytes)
    requires Inv(jobs, s) && (ReadsByte(jobs, s, s', k) || Grows(jobs, s, s', k, longer))
    ensures k < |s.calls| && k < |s'.calls| == |s'.made| == |jobs| && Work(jobs, s', k) < Work(jobs, s, k)
  {
    assert CallOk(s, k, jobs[k]) && BodiesOk(s, k, jobs[k]);
    assert !s.calls[k].Entered? ==> BufferOk(s, s.calls[k].b);
  }

  lemma CopyDrops(jobs: seq<Job>, s: State, s': State, k: nat)
    requires Inv(jobs, s) && (EndsReading(jobs, s, s', k) || StartsClone(jobs, s, s', k)
      || CopiesOriginal(jobs, s, s', k) || CopiesClone(jobs, s, s', k))
    ensures k < |s.calls| && k < |s'.calls| == |s'.made| == |jobs| && Work(jobs, s', k) < Work(jobs, s, k)
  {
    assert CallOk(s, k, jobs[k]) && BodiesOk(s, k, jobs[k]);
    assert !s.calls[k].Entered? ==> BufferOk(s, s.calls[k].b);
  }

  lemma PutDrops(jobs: seq<Job>, s: State, s': State, k: nat)
    requires Inv(jobs, s) && Puts(jobs, s, s', k)
    ensures k < |s.calls| && k < |s'.calls| == |s'.made| == |jobs| && Work(jobs, s', k) < Work(jobs, s, k)
  {
    assert CallOk(s, k, jobs[k]) && BodiesOk(s, k, jobs[k]);
    assert !s.calls[k].Entered? ==> BufferOk(s, s.calls[k].b);
  }

  lemma WorkDrops(jobs: seq<Job>, s: State, s': State, k: nat)
    requires Inv(jobs, s) && Step(jobs, s, s', k)
    ensures k < |s.calls| && k < |s'.calls| == |s'.made| == |jobs| && Work(jobs, s', k) < Work(jobs, s, k)
  {
    if b: nat :| Gets(jobs, s, s', k, b) {
      GetDrops(jobs, s, s', k, b);
    } else if GetsNew(jobs, s, s', k) || Resets(jobs, s, s', k) {
      GetDrops(jobs, s, s', k, 0);
    } else if ReadsByte(jobs, s, s', k) {
      ReadDrops(jobs, s, s', k, []);
    } else if longer :| Grows(jobs, s, s', k, longer) {
      ReadDrops(jobs, s, s', k, longer);
    } else if Puts(jobs, s, s', k) {
      PutDrops(jobs, s, s', k);
    } else {
      CopyDrops(jobs, s, s', k);
    }
  }

  lemma OtherWork(jobs: seq<Job>, s: State, s': State, k: nat, j: nat)
    requires Inv(jobs, s) && Inv(jobs, s') && Local(s, s', k) && j != k && j < |s.calls|
    ensures Work(jobs, s', j) == Work(jobs, s, j)
  {
    assert CallOk(s, j, jobs[j]);
    var c := s.calls[j];
    if c.Reading? {
      assert BufferOk(s, c.b) && s'.buffers[c.b] == s.buffers[c.b];
      assert s'.slices[s.buffers[c.b].store] == s.slices[s.buffers[c.b].store];
    }
  }

  lemma {:induction false} SumDrops(jobs: seq<Job>, s: State, s': State, k: nat, n: nat)
    requires k < |s.calls| && n <= |s.calls| == |s.made| == |s'.calls| == |s'.made| == |jobs|
    requires Work(jobs, s', k) < Work(jobs, s, k)
    requires forall j :: 0 <= j < |s.calls| && j != k ==> Work(jobs, s', j) == Work(jobs, s, j)
    ensures Measure(jobs, s', n) <= Measure(jobs, s, n) - (if k < n then 1 else 0)
  {
    if n > 0 {
      SumDrops(jobs, s, s', k, n - 1);
    }
  }

  lemma MeasureDrops(jobs: seq<Job>, s: State, s': State, k: nat)
    requires Inv(jobs, s) && Step(jobs, s, s', k)
    ensures Inv(jobs, s') && Measure(jobs, s', |jobs|) < Measure(jobs, s, |jobs|)
  {
    StepKeeps(jobs, s, s', k);
    WorkDrops(jobs, s, s', k);
    forall j | 0 <= j < |s.calls| && j != k
      ensures Work(jobs, s', j) == Work(jobs, s, j)
    {
      OtherWork(jobs, s, s', k, j);
    }
    SumDrops(jobs, s, s', k, |jobs|);
  }

  lemma {:induction false} MeasureNonNegative(jobs: seq<Job>, s: State, n: nat)
    requires Inv(jobs, s) && n <= |s.calls|
    ensures Measure(jobs, s, n) >= 0
  {
    if n > 0 {
      MeasureNonNegative(jobs, s, n - 1);
      assert CallOk(s, n - 1, jobs[n - 1]);
    }
  }

  /** The steps that there are to do at the start: per request, as many calls as clones. */
  function Bound(jobs: seq<Job>, n: nat): nat
    requires n <= |jobs|
  {
    if n == 0 then 0 else Bound(jobs, n - 1) + Times(jobs[n - 1].clones, Cost(|jobs[n - 1].body|))
  }

  lemma {:induction false} MeasureAtStart(jobs: seq<Job>, n: nat)
    requires n <= |jobs|
    ensures Measure(jobs, Init(jobs), n) == Bound(jobs, n)
  {
    if n > 0 {
      MeasureAtStart(jobs, n - 1);
    }
  }

  lemma {:induction false} MeasureBounds(jobs: seq<Job>, states: seq<State>)
    requires Run(jobs, states)
    ensures Inv(jobs, states[|states| - 1])
    ensures |states| - 1 + Measure(jobs, states[|states| - 1], |jobs|) <= Measure(jobs, Init(jobs), |jobs|)
    decreases |states|
  {
    RunKeeps(jobs, states);
    var n := |states| - 1;
    if n > 0 {
      RunBefore(jobs, states);
      MeasureBounds(jobs, states[..n]);
      var k: nat :| Step(jobs, states[n - 1], states[n], k);
      MeasureDrops(jobs, states[n - 1], states[n], k);
    }
  }

  /** No run is longer than that: as some step is possible until every request has its clones, they all get made. */
  lemma {:induction false} RunsAreBounded(jobs: seq<Job>, states: seq<State>)
    requires Run(jobs, states)
    ensures |states| - 1 <= Bound(jobs, |jobs|)
  {
    MeasureBounds(jobs, states);
    MeasureNonNegative(jobs, states[|states| - 1], |jobs|);
    MeasureAtStart(jobs, |jobs|);
  }
}
