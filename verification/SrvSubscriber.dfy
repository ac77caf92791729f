/** The DNS SRV subscriber (sd/dnssrv/subscriber.go, sd/subscriber.go): from the records of one
    lookup to the list of slots that the balancers draw from. */
module SrvSubscriber {
  import opened Options
  import opened Permutations
  import opened Sorting
  import opened Weights

  datatype Srv = Srv(target: string, port: Uint16, priority: Uint16, weight: Uint16)

  // ---------------------------------------------------------------- the order of records

  /** Ascending priority, then descending weight, then target, then port. */
  predicate SrvLess(a: Srv, b: Srv) {
    if a.priority == b.priority then
      if a.weight == b.weight then
        if a.target == b.target then a.port < b.port
        else StringLess(a.target, b.target)
      else a.weight > b.weight
    else a.priority < b.priority
  }

  lemma SrvLessIsTotalOrder()
    ensures StrictTotalOrder(SrvLess)
  {
    StringLessIsTotalOrder();
  }

  // ---------------------------------------------------------------- slots

  function Repeat<T>(x: T, n: nat): (r: seq<T>)
    ensures |r| == n && forall i :: 0 <= i < n ==> r[i] == x
  {
    seq(n, _ => x)
  }

  /** Each element of `xs` repeated as often as its weight says. */
  function Expand<T>(xs: seq<T>, ws: seq<nat>): seq<T>
    requires |xs| == |ws|
  {
    if xs == [] then [] else Repeat(xs[0], ws[0]) + Expand(xs[1..], ws[1..])
  }

  lemma {:induction false} ExpandSnoc<T>(xs: seq<T>, ws: seq<nat>, x: T, w: nat)
    requires |xs| == |ws|
    ensures Expand(xs + [x], ws + [w]) == Expand(xs, ws) + Repeat(x, w)
    decreases |xs|
  {
    if xs == [] {
      assert xs + [x] == [x] && ws + [w] == [w];
      assert Expand([x], [w]) == Repeat(x, w) + Expand([x][1..], [w][1..]);
    } else {
      ExpandSnoc(xs[1..], ws[1..], x, w);
      assert (xs + [x])[1..] == xs[1..] + [x] && (ws + [w])[1..] == ws[1..] + [w];
    }
  }

  lemma {:induction false} ExpandLength<T>(xs: seq<T>, ws: seq<nat>)
    requires |xs| == |ws|
    ensures |Expand(xs, ws)| == Sum(ws)
    decreases |xs|
  {
    if xs != [] {
      ExpandLength(xs[1..], ws[1..]);
    }
  }

  lemma {:induction false} ExpandMap<A, B>(f: A -> B, xs: seq<A>, ws: seq<nat>)
    requires |xs| == |ws|
    ensures Expand(Map(f, xs), ws) == Map(f, Expand(xs, ws))
    decreases |xs|
  {
    if xs != [] {
      ExpandMap(f, xs[1..], ws[1..]);
      assert Map(f, xs)[1..] == Map(f, xs[1..]);
      var head, tail := Repeat(xs[0], ws[0]), Expand(xs[1..], ws[1..]);
      assert Map(f, head + tail) == Map(f, head) + Map(f, tail);
      assert Map(f, head) == Repeat(f(xs[0]), ws[0]);
    }
  }

  /** Among distinct elements, each one gets exactly its weight in copies and no other gets any. */
  lemma {:induction false} ExpandCounts<T>(xs: seq<T>, ws: seq<nat>, i: nat)
    requires |xs| == |ws| && i < |xs| && Distinct(xs)
    ensures multiset(Expand(xs, ws))[xs[i]] == ws[i]
    decreases |xs|
  {
    var head, tail := Repeat(xs[0], ws[0]), Expand(xs[1..], ws[1..]);
    RepeatCounts(xs[0], ws[0], xs[i]);
    if i == 0 {
      if xs[0] in tail {
        ExpandMembers(xs[1..], ws[1..], xs[0]);
      }
    } else {
      ExpandCounts(xs[1..], ws[1..], i - 1);
    }
  }

  lemma {:induction false} RepeatCounts<T>(x: T, n: nat, y: T)
    ensures multiset(Repeat(x, n))[y] == if x == y then n else 0
  {
    if n > 0 {
      RepeatCounts(x, n - 1, y);
      assert Repeat(x, n) == Repeat(x, n - 1) + [x];
    }
  }

  lemma {:induction false} ExpandMembers<T>(xs: seq<T>, ws: seq<nat>, x: T)
    requires |xs| == |ws| && x in Expand(xs, ws)
    ensures x in xs
    decreases |xs|
  {
    if x !in Repeat(xs[0], ws[0]) {
      ExpandMembers(xs[1..], ws[1..], x);
    }
  }

  // ---------------------------------------------------------------- resolve

  /** The records in the order of the lookup's sort. */
  function Ranked(recs: seq<Srv>): seq<Srv> {
    SortedCopy(SrvLess, recs)
  }

  /** The leading run whose priority is not above `limit`. */
  function Leading(s: seq<Srv>, limit: Uint16): seq<Srv> {
    if s == [] || s[0].priority > limit then [] else [s[0]] + Leading(s[1..], limit)
  }

  /** The records that are given slots, in slot order. */
  function Top(recs: seq<Srv>): seq<Srv> {
    FirstGroup(Ranked(recs))
  }

  /** The leading run of the first record's priority. */
  function FirstGroup(ranked: seq<Srv>): seq<Srv> {
    if ranked == [] then [] else Leading(ranked, ranked[0].priority)
  }

  function WeightOf(r: Srv): Uint16 {
    r.weight
  }

  function TopWeights(recs: seq<Srv>): (ws: seq<Uint16>)
    ensures |ws| == |Top(recs)|
  {
    Map(WeightOf, Top(recs))
  }

  /** The number of slots of every top record. */
  function SlotCounts(recs: seq<Srv>): (ws: seq<Uint16>)
    ensures |ws| == |Top(recs)|
  {
    Compacted(TopWeights(recs))
  }

  function Slots(recs: seq<Srv>, hostOf: Srv -> string): seq<string> {
    Expand(Map(hostOf, Top(recs)), SlotCounts(recs))
  }

  /** What of the leading run follows the first i records. */
  function Following(ranked: seq<Srv>, i: nat): seq<Srv>
    requires i <= |ranked|
  {
    if i == |ranked| then [] else Leading(ranked[i..], ranked[0].priority)
  }

  /** The first i records are in the leading run. */
  ghost predicate Collected(ranked: seq<Srv>, i: nat) {
    i <= |ranked| && FirstGroup(ranked) == ranked[..i] + Following(ranked, i)
  }

  lemma FollowingStep(ranked: seq<Srv>, i: nat)
    requires i < |ranked|
    ensures ranked[i].priority <= ranked[0].priority ==> Following(ranked, i) == [ranked[i]] + Following(ranked, i + 1)
    ensures ranked[i].priority > ranked[0].priority ==> Following(ranked, i) == []
  {
    assert ranked[i..][0] == ranked[i] && ranked[i..][1..] == ranked[i + 1..];
  }

  lemma TakeOneMore<T>(s: seq<T>, i: nat, rest: seq<T>)
    requires i < |s|
    ensures s[..i] + ([s[i]] + rest) == s[..i + 1] + rest
  {
  }

  lemma CollectedStep(ranked: seq<Srv>, i: nat)
    requires Collected(ranked, i) && i < |ranked|
    ensures ranked[i].priority <= ranked[0].priority ==> Collected(ranked, i + 1)
    ensures ranked[i].priority > ranked[0].priority ==> FirstGroup(ranked) == ranked[..i]
  {
    FollowingStep(ranked, i);
    TakeOneMore(ranked, i, Following(ranked, i + 1));
  }

  lemma CollectedAll(ranked: seq<Srv>)
    requires Collected(ranked, |ranked|)
    ensures FirstGroup(ranked) == ranked
  {
    assert ranked[..|ranked|] == ranked;
  }

  /** The weights and hosts of the leading run of equal priority. */
  method CollectTop(srvs: array<Srv>, hostOf: Srv -> string) returns (ws: seq<Uint16>, host: seq<string>)
    ensures ws == Map(WeightOf, FirstGroup(srvs[..])) && host == Map(hostOf, FirstGroup(srvs[..]))
  {
    ghost var ranked := srvs[..];
    ws, host := [], [];
    var i := 0;
    while i < srvs.Length && srvs[i].priority <= srvs[0].priority
      invariant 0 <= i <= srvs.Length
      invariant Collected(ranked, i)
      invariant ws == Map(WeightOf, ranked[..i]) && host == Map(hostOf, ranked[..i])
    {
      CollectedStep(ranked, i);
      MapSnoc(WeightOf, ranked, i);
      MapSnoc(hostOf, ranked, i);
      ws, host := ws + [srvs[i].weight], host + [hostOf(srvs[i])];
      i := i + 1;
    }
    if i < |ranked| {
      CollectedStep(ranked, i);
    } else {
      CollectedAll(ranked);
    }
  }

  /** Every host as often as its count says, in order. */
  method FillSlots(host: seq<string>, counts: array<Uint16>) returns (instances: seq<string>)
    requires counts.Length == |host|
    ensures instances == Expand(host, counts[..])
  {
    instances := [];
    ghost var ns: seq<nat> := counts[..];
    for k := 0 to counts.Length
      invariant instances == Expand(host[..k], ns[..k])
    {
      ghost var before := instances;
      var times := counts[k];
      for j := 0 to times
        invariant instances == before + Repeat(host[k], j)
      {
        assert Repeat(host[k], j + 1) == Repeat(host[k], j) + [host[k]];
        instances := instances + [host[k]];
      }
      ExpandSnoc(host[..k], ns[..k], host[k], ns[k]);
      assert host[..k + 1] == host[..k] + [host[k]] && ns[..k + 1] == ns[..k] + [ns[k]];
    }
    assert host[..|host|] == host && ns[..|ns|] == ns;
  }

  method Resolve(srvs: array<Srv>, hostOf: Srv -> string) returns (instances: seq<string>)
    modifies srvs
    ensures instances == Slots(old(srvs[..]), hostOf)
    ensures srvs[..] == Ranked(old(srvs[..]))
  {
    SrvLessIsTotalOrder();
    Sort(SrvLess, srvs);
    SortedIsSortedCopy(SrvLess, srvs[..], old(srvs[..]));
    var ws, host := CollectTop(srvs, hostOf);
    var weights := new Uint16[|ws|](j requires 0 <= j < |ws| => ws[j]);
    assert weights[..] == ws;
    var counts := Compact(weights);
    assert |counts[..]| == |ws| == |host|;
    instances := FillSlots(host, counts);
  }

  /** The slot list depends on the records only as a multiset: no order of the DNS answer shows. */
  lemma ResolveIgnoresOrder(recs: seq<Srv>, recs': seq<Srv>, hostOf: Srv -> string)
    requires Permuted(recs, recs')
    ensures Slots(recs, hostOf) == Slots(recs', hostOf)
  {
    SrvLessIsTotalOrder();
    SortedCopyOfPermutation(SrvLess, recs, recs');
  }

  predicate HasLowestPriority(recs: seq<Srv>, r: Srv) {
    forall i :: 0 <= i < |recs| ==> r.priority <= recs[i].priority
  }

  lemma {:induction false} LeadingCounts(s: seq<Srv>, limit: Uint16, r: Srv)
    requires Sorted(SrvLess, s)
    ensures multiset(Leading(s, limit))[r] == if r.priority <= limit then multiset(s)[r] else 0
    decreases |s|
  {
    if s != [] {
      assert s == [s[0]] + s[1..];
      if r in s {
        SrvLessIsTotalOrder();
        SortedHead(SrvLess, s, r);
      }
      if s[0].priority <= limit {
        LeadingCounts(s[1..], limit, r);
      }
    }
  }

  lemma {:induction false} LeadingIsSorted(s: seq<Srv>, limit: Uint16)
    requires Sorted(SrvLess, s)
    ensures |Leading(s, limit)| <= |s| && Leading(s, limit) == s[..|Leading(s, limit)|]
    ensures Sorted(SrvLess, Leading(s, limit))
    decreases |s|
  {
    if s != [] && s[0].priority <= limit {
      LeadingIsSorted(s[1..], limit);
    }
  }

  /** The records with slots are exactly those of the lowest priority, with their multiplicity. */
  lemma {:induction false} TopIsLowestPriority(recs: seq<Srv>, r: Srv)
    ensures multiset(Top(recs))[r] == if HasLowestPriority(recs, r) then multiset(recs)[r] else 0
  {
    SrvLessIsTotalOrder();
    SortedCopyIsSorted(SrvLess, recs);
    var ranked := Ranked(recs);
    if ranked == [] {
      assert |multiset(recs)| == |recs| == |multiset(ranked)|;
    } else {
      LeadingCounts(ranked, ranked[0].priority, r);
      assert ranked[0] in multiset(recs);
      forall x | x in recs
        ensures ranked[0].priority <= x.priority
      {
        PermutedMember(recs, ranked, x);
        SortedHead(SrvLess, ranked, x);
      }
      if r in recs {
        assert r in multiset(recs);
        assert HasLowestPriority(recs, r) <==> r.priority <= ranked[0].priority;
      }
    }
  }

  /** The records used come in descending order of weight, and a heavier one never gets fewer slots. */
  lemma {:induction false} SlotsByDescendingWeight(recs: seq<Srv>, i: nat, j: nat)
    requires i <= j < |Top(recs)|
    ensures Top(recs)[i].priority == Top(recs)[j].priority
    ensures Top(recs)[i].weight >= Top(recs)[j].weight
    ensures SlotCounts(recs)[i] >= SlotCounts(recs)[j]
  {
    SrvLessIsTotalOrder();
    SortedCopyIsSorted(SrvLess, recs);
    var ranked := Ranked(recs);
    LeadingIsSorted(ranked, ranked[0].priority);
    LeadingBelow(ranked, ranked[0].priority, i);
    LeadingBelow(ranked, ranked[0].priority, j);
    SortedHead(SrvLess, ranked, Top(recs)[i]);
    SortedHead(SrvLess, ranked, Top(recs)[j]);
    if i < j {
      assert !SrvLess(Top(recs)[j], Top(recs)[i]);
    }
    var ws := TopWeights(recs);
    NormalizeKeepsOrder(ws, j, i);
    CompactIsExact(ws, i);
    CompactIsExact(ws, j);
    Arith.MulCancels(Compacted(ws)[j], Compacted(ws)[i], CommonFactor(ws));
  }

  /** Of two records with slots and of equal weight, the one with the lesser target comes first, and of
      equal targets the one with the lesser port. */
  lemma TiesByTargetThenPort(recs: seq<Srv>, i: nat, j: nat)
    requires i < j < |Top(recs)| && Top(recs)[i].weight == Top(recs)[j].weight
    ensures var a, b := Top(recs)[i], Top(recs)[j];
      StringLess(a.target, b.target) || (a.target == b.target && a.port <= b.port)
  {
    SrvLessIsTotalOrder();
    StringLessIsTotalOrder();
    SortedCopyIsSorted(SrvLess, recs);
    var ranked := Ranked(recs);
    LeadingIsSorted(ranked, ranked[0].priority);
    assert !SrvLess(Top(recs)[j], Top(recs)[i]);
    SlotsByDescendingWeight(recs, i, j);
  }

  lemma {:induction false} LeadingBelow(s: seq<Srv>, limit: Uint16, i: nat)
    requires i < |Leading(s, limit)|
    ensures Leading(s, limit)[i].priority <= limit && Leading(s, limit)[i] in s
    decreases |s|
  {
    if i > 0 {
      LeadingBelow(s[1..], limit, i - 1);
    }
  }

  /** At most max(100, n) slots, and none at all exactly when every top weight is 0. */
  lemma {:induction false} NumberOfSlots(recs: seq<Srv>, hostOf: Srv -> string)
    ensures |Slots(recs, hostOf)| == Sum(SlotCounts(recs)) <= if |Top(recs)| <= 100 then 100 else |Top(recs)|
    ensures Slots(recs, hostOf) == [] <==> forall i :: 0 <= i < |Top(recs)| ==> Top(recs)[i].weight == 0
  {
    ExpandLength(Map(hostOf, Top(recs)), SlotCounts(recs));
    CompactTotal(TopWeights(recs));
    SumZero(TopWeights(recs));
    assert forall i :: 0 <= i < |Top(recs)| ==> TopWeights(recs)[i] == Top(recs)[i].weight;
  }

  // ---------------------------------------------------------------- owners of slots

  /** For every slot, the index of the top record it belongs to. */
  function Owners(recs: seq<Srv>): seq<nat> {
    Expand(Range(|Top(recs)|), SlotCounts(recs))
  }

  lemma {:induction false} SlotsFollowOwners(recs: seq<Srv>, hostOf: Srv -> string)
    ensures |Slots(recs, hostOf)| == |Owners(recs)|
    ensures forall k :: 0 <= k < |Owners(recs)| ==>
      Owners(recs)[k] < |Top(recs)| && Slots(recs, hostOf)[k] == hostOf(Top(recs)[Owners(recs)[k]])
  {
    var top := Top(recs);
    if top != [] {
      var f := (i: nat) => if i < |top| then hostOf(top[i]) else hostOf(top[0]);
      assert Map(f, Range(|top|)) == Map(hostOf, top);
      ExpandMap(f, Range(|top|), SlotCounts(recs));
      forall k | 0 <= k < |Owners(recs)|
        ensures Owners(recs)[k] < |top|
      {
        ExpandMembers(Range(|top|), SlotCounts(recs), Owners(recs)[k]);
      }
    }
  }

  lemma OwnerCounts(recs: seq<Srv>, i: nat)
    requires i < |Top(recs)|
    ensures multiset(Owners(recs))[i] == SlotCounts(recs)[i]
  {
    ExpandCounts(Range(|Top(recs)|), SlotCounts(recs), i);
  }

  /** Which records own no slot at all. */
  lemma OwnsNothingIff(recs: seq<Srv>, i: nat)
    requires i < |Top(recs)|
    ensures var ws := TopWeights(recs);
      i !in Owners(recs) <==>
        || Top(recs)[i].weight == 0
        || (|ws| <= 100 < Sum(ws) && 100 * Top(recs)[i].weight < Sum(ws))
        || (100 < |ws| < Sum(ws) && Times(Top(recs)[i].weight, |ws|) < Sum(ws))
  {
    OwnerCounts(recs, i);
    StarvedIff(TopWeights(recs), i);
    assert i in Owners(recs) <==> i in multiset(Owners(recs));
  }

  lemma SumOfTwo(u: nat, w: nat)
    ensures Sum([u, w]) == u + w
  {
    SumAppend([u], w);
    SumAppend([], u);
    assert [] + [u] == [u] && [u] + [w] == [u, w];
  }

  /** It does happen to a record with a positive weight: 1 against 100 or more gets nothing, while 1 against
      anything below has its slot. */
  lemma PositiveWeightStarves(w: Uint16) returns (recs: seq<Srv>)
    requires w > 0
    ensures |recs| == 2 && recs[0].weight == w && recs[1].weight == 1 && Top(recs) == recs
    ensures 0 in Owners(recs) && (1 !in Owners(recs) <==> w >= 100)
  {
    var heavy, light := Srv("a", 80, 0, w), Srv("b", 80, 0, 1);
    recs := [heavy, light];
    assert "a"[0] < "b"[0];
    SrvLessIsTotalOrder();
    SortedIsSortedCopy(SrvLess, recs, recs);
    assert Leading([light], 0) == [light];
    assert Leading(recs, 0) == recs by {
      assert recs[1..] == [light];
    }
    assert Top(recs) == recs;
    var ws := TopWeights(recs);
    assert ws == [w, 1];
    SumOfTwo(w, 1);
    OwnsNothingIff(recs, 0);
    OwnsNothingIff(recs, 1);
  }

  lemma {:induction false} ExpandBelow(xs: seq<nat>, ws: seq<nat>, low: nat)
    requires |xs| == |ws| && forall k :: 0 <= k < |xs| ==> low <= xs[k]
    ensures forall k :: 0 <= k < |Expand(xs, ws)| ==> low <= Expand(xs, ws)[k]
  {
    forall k | 0 <= k < |Expand(xs, ws)|
      ensures low <= Expand(xs, ws)[k]
    {
      ExpandMembers(xs, ws, Expand(xs, ws)[k]);
    }
  }

  lemma {:induction false} ExpandAscends(xs: seq<nat>, ws: seq<nat>)
    requires |xs| == |ws| && forall j, k :: 0 <= j < k < |xs| ==> xs[j] <= xs[k]
    ensures forall j, k :: 0 <= j < k < |Expand(xs, ws)| ==> Expand(xs, ws)[j] <= Expand(xs, ws)[k]
    decreases |xs|
  {
    if xs != [] {
      ExpandAscends(xs[1..], ws[1..]);
      ExpandBelow(xs[1..], ws[1..], xs[0]);
    }
  }

  /** The slots of the list, from first to last, belong to records of descending weight, of one priority. */
  lemma {:induction false} SlotsDescend(recs: seq<Srv>, j: nat, k: nat)
    requires j <= k < |Owners(recs)|
    ensures Owners(recs)[j] <= Owners(recs)[k] < |Top(recs)|
    ensures Top(recs)[Owners(recs)[j]].weight >= Top(recs)[Owners(recs)[k]].weight
    ensures Top(recs)[Owners(recs)[j]].priority == Top(recs)[Owners(recs)[k]].priority
  {
    ExpandAscends(Range(|Top(recs)|), SlotCounts(recs));
    ExpandMembers(Range(|Top(recs)|), SlotCounts(recs), Owners(recs)[k]);
    SlotsByDescendingWeight(recs, Owners(recs)[j], Owners(recs)[k]);
  }

  // ---------------------------------------------------------------- the cache

  /** The order in which a shuffled list shows its elements. */
  function Rearranged<T>(s: seq<T>, perm: seq<nat>): (r: seq<T>)
    requires IsPermutation(perm, |s|)
    ensures |r| == |s|
  {
    seq(|s|, i requires 0 <= i < |s| => s[perm[i]])
  }

  /** `rand.Perm`, as any function that returns permutations. */
  ghost predicate Shuffles(perm: nat -> seq<nat>) {
    forall n :: IsPermutation(perm(n), n)
  }

  method NewRandomFixedSubscriber(hosts: seq<string>, perm: seq<nat>) returns (res: array<string>)
    requires IsPermutation(perm, |hosts|)
    ensures fresh(res) && res[..] == Rearranged(hosts, perm)
  {
    res := new string[|hosts|];
    var j := 0;
    for n := 0 to |perm|
      invariant j == n
      invariant forall k :: 0 <= k < j ==> res[k] == hosts[perm[k]]
    {
      res[j] := hosts[perm[n]];
      j := j + 1;
    }
  }

  /** The order in which the cache shows the slots: as resolved, or shuffled above 100 of them. */
  function Arrangement(slots: nat, perm: nat -> seq<nat>): seq<nat> {
    if slots > 100 then perm(slots) else Range(slots)
  }

  lemma ArrangementIsPermutation(slots: nat, perm: nat -> seq<nat>)
    requires Shuffles(perm)
    ensures IsPermutation(Arrangement(slots, perm), slots)
  {
  }

  /** Up to 100 slots are cached in slot order, more in the order drawn for their number. */
  lemma CachedOrder<T>(slots: seq<T>, perm: nat -> seq<nat>)
    requires Shuffles(perm)
    ensures IsPermutation(Arrangement(|slots|, perm), |slots|)
    ensures |slots| <= 100 ==> Rearranged(slots, Arrangement(|slots|, perm)) == slots
    ensures |slots| > 100 ==> Arrangement(|slots|, perm) == perm(|slots|)
    ensures forall i :: 0 <= i < |slots| ==>
      Arrangement(|slots|, perm)[i] < |slots| &&
      Rearranged(slots, Arrangement(|slots|, perm))[i] == slots[Arrangement(|slots|, perm)[i]]
  {
    ArrangementIsPermutation(|slots|, perm);
  }

  class Subscriber {
    const hostOf: Srv -> string
    var cache: array<string>

    constructor (hostOf: Srv -> string)
      ensures this.hostOf == hostOf && cache[..] == [] && fresh(cache)
    {
      this.hostOf := hostOf;
      cache := new string[0];
    }

    /** A copy of the cached list: what the caller does with it cannot reach the cache. */
    method Hosts() returns (res: array<string>)
      ensures fresh(res) && res[..] == cache[..]
    {
      var hs := cache;
      res := new string[hs.Length];
      for i := 0 to hs.Length
        invariant forall k :: 0 <= k < i ==> res[k] == hs[k]
      {
        res[i] := hs[i];
      }
    }

    /** One refresh. A failed lookup leaves the cached list as it was. */
    method Update(answer: Option<array<Srv>>, perm: nat -> seq<nat>)
      requires Shuffles(perm)
      modifies this`cache, if answer.Some? then {answer.value} else {}
      ensures answer.None? ==> cache == old(cache) && cache[..] == old(cache[..])
      ensures answer.Some? ==>
        var slots := Slots(old(answer.value[..]), hostOf);
        && fresh(cache)
        && IsPermutation(Arrangement(|slots|, perm), |slots|)
        && cache[..] == Rearranged(slots, Arrangement(|slots|, perm))
    {
      if answer.None? {
        return;
      }
      var instances := Resolve(answer.value, hostOf);
      ArrangementIsPermutation(|instances|, perm);
      if |instances| > 100 {
        cache := NewRandomFixedSubscriber(instances, perm(|instances|));
      } else {
        cache := new string[|instances|](i requires 0 <= i < |instances| => instances[i]);
        assert cache[..] == instances == Rearranged(instances, Range(|instances|));
      }
    }
  }
}
