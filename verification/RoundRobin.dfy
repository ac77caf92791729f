/** The round-robin balancer (sd/loadbalancing.go) over the slots of the DNS subscriber:
    tickets from one shared 64-bit counter, and the exact share every record gets. */
module RoundRobin {
  import opened Arith
  import opened Permutations
  import opened SrvSubscriber

  const WRAP: nat := 0x1_0000_0000_0000_0000

  type Uint64 = x: int | 0 <= x < WRAP witness 0

  /** What a subscriber answers, and what a balancer answers. */
  datatype Fetched = Hosts(hs: seq<string>) | FetchError(err: string)
  datatype Picked = Picked(host: string) | Failed(err: string)

  const ERR_NO_HOSTS := "no hosts available"

  /** `balancer.hosts`: a subscriber's error passes, an empty list is an error of its own. */
  function Usable(f: Fetched): Fetched {
    if f.Hosts? && |f.hs| <= 0 then FetchError(ERR_NO_HOSTS) else f
  }

  /** Go's `atomic.AddUint64(&counter, 1) - 1`, with the wrap-around of both operations. */
  function TicketOf(added: Uint64): Uint64 {
    (added + WRAP - 1) % WRAP
  }

  function Added(counter: Uint64): Uint64 {
    (counter + 1) % WRAP
  }

  class RoundRobinLB {
    var counter: Uint64

    constructor (start: Uint64)
      ensures counter == start
    {
      counter := start;
    }

    /** One pick out of the list a subscriber just answered with. The ticket is the counter before
        the call; a failed fetch takes no ticket. The index is always in range. */
    method Host(fetched: Fetched) returns (r: Picked)
      modifies this
      ensures r.Picked? <==> fetched.Hosts? && fetched.hs != []
      ensures r.Picked? ==> r.host == fetched.hs[old(counter) % |fetched.hs|] && counter == Added(old(counter))
      ensures r.Failed? ==> counter == old(counter)
      ensures r.Failed? ==> r.err == if fetched.FetchError? then fetched.err else ERR_NO_HOSTS
    {
      var usable := Usable(fetched);
      if usable.FetchError? {
        return Failed(usable.err);
      }
      DrawnTicket(counter, counter, 0);
      counter := Added(counter);
      var offset := TicketOf(counter) % |usable.hs|;
      return Picked(usable.hs[offset]);
    }
  }

  // ---------------------------------------------------------------- interleaved callers

  /** Callers of `Host` over one fixed list of `slots` hosts. A caller first fetches the list,
      later draws its ticket in one atomic step; anything may happen in between. */
  datatype State = State(counter: Uint64, fetched: set<nat>, log: seq<Draw>)
  datatype Draw = Draw(caller: nat, ticket: Uint64, slot: nat)

  function Init(start: Uint64): State {
    State(start, {}, [])
  }

  predicate Fetches(s: State, s': State, caller: nat) {
    caller !in s.fetched && s' == s.(fetched := s.fetched + {caller})
  }

  predicate Draws(s: State, s': State, caller: nat, slots: nat)
    requires slots > 0
  {
    && caller in s.fetched
    && var counter := Added(s.counter);
       var ticket := TicketOf(counter);
       s' == State(counter, s.fetched - {caller}, s.log + [Draw(caller, ticket, ticket % slots)])
  }

  ghost predicate Next(s: State, s': State, slots: nat)
    requires slots > 0
  {
    exists caller :: Fetches(s, s', caller) || Draws(s, s', caller, slots)
  }

  ghost predicate Run(run: seq<State>, start: Uint64, slots: nat)
    requires slots > 0
  {
    && run != [] && run[0] == Init(start)
    && forall i :: 0 <= i < |run| - 1 ==> Next(run[i], run[i + 1], slots)
  }

  /** A draw holds the counter it found, and leaves the next one. */
  lemma DrawnTicket(counter: Uint64, start: nat, n: nat)
    requires counter == (start + n) % WRAP
    ensures TicketOf(Added(counter)) == counter && Added(counter) == (start + (n + 1)) % WRAP
  {
  }

  /** In every interleaving the k-th draw holds ticket start + k, wrapped. */
  lemma {:induction false} TicketsAreConsecutive(run: seq<State>, start: Uint64, slots: nat)
    requires slots > 0 && Run(run, start, slots)
    ensures var s := run[|run| - 1];
      && s.counter == (start + |s.log|) % WRAP
      && forall k :: 0 <= k < |s.log| ==>
           s.log[k].ticket == (start + k) % WRAP && s.log[k].slot == s.log[k].ticket % slots
    decreases |run|
  {
    if |run| > 1 {
      var before := run[..|run| - 1];
      assert Run(before, start, slots);
      TicketsAreConsecutive(before, start, slots);
      var s, s' := run[|run| - 2], run[|run| - 1];
      assert Next(s, s', slots);
      DrawnTicket(s.counter, start, |s.log|);
    }
  }

  // ---------------------------------------------------------------- windows of tickets

  /** The slots of `slots` consecutive tickets, the first one being `first`. */
  function Window(first: Uint64, slots: nat): (w: seq<nat>)
    requires slots > 0
    ensures |w| == slots
  {
    seq(slots, k requires 0 <= k < slots => (first + k) % WRAP % slots)
  }

  /** Every slot is drawn once. */
  ghost predicate FairWindow(first: Uint64, slots: nat)
    requires slots > 0
  {
    multiset(Window(first, slots)) == multiset(Range(slots))
  }

  lemma ModDistinct(a: nat, b: nat, d: nat)
    requires a < b < a + d
    ensures a % d != b % d
  {
    if a % d == b % d {
      assert a == d * (a / d) + a % d && b == d * (b / d) + b % d;
      MulCancels(a / d, b / d, d);
      MulStrict(a / d, b / d, d);
    }
  }

  lemma DistinctIsFair(first: Uint64, slots: nat)
    requires slots > 0 && Distinct(Window(first, slots))
    ensures FairWindow(first, slots)
  {
    PermutationIsRange(Window(first, slots), slots);
  }

  lemma {:induction false} RepeatedIsUnfair(first: Uint64, slots: nat, i: nat, j: nat)
    requires i < j < slots && Window(first, slots)[i] == Window(first, slots)[j]
    ensures !FairWindow(first, slots)
  {
    var w := Window(first, slots);
    var x := w[i];
    assert w == w[..i] + [x] + w[i + 1..j] + [x] + w[j + 1..];
    assert multiset(w)[x] >= 2;
    DistinctCount(Range(slots), x);
  }

  lemma FairWithoutWrap(first: Uint64, slots: nat)
    requires slots > 0 && first + slots <= WRAP
    ensures FairWindow(first, slots)
  {
    var w := Window(first, slots);
    forall i, j | 0 <= i < j < slots
      ensures w[i] != w[j]
    {
      ModUnique(first + i, WRAP, 0, first + i);
      ModUnique(first + j, WRAP, 0, first + j);
      ModDistinct(first + i, first + j, slots);
    }
    DistinctIsFair(first, slots);
  }

  lemma ModOfMod(x: nat, d: nat, q: nat)
    requires d > 0 && WRAP == q * d
    ensures x % WRAP % d == x % d
  {
    var r := x % WRAP;
    assert x == WRAP * (x / WRAP) + r;
    DivBounds(r, d);
    assert WRAP * (x / WRAP) == (q * (x / WRAP)) * d;
    MulDistributes(q * (x / WRAP), r / d, d);
    assert r == (r / d) * d + r % d;
    ModUnique(x, d, q * (x / WRAP) + r / d, r % d);
  }

  lemma FairWhenDividing(first: Uint64, slots: nat)
    requires slots > 0 && WRAP % slots == 0
    ensures FairWindow(first, slots)
  {
    var w := Window(first, slots);
    assert WRAP == (WRAP / slots) * slots;
    forall i, j | 0 <= i < j < slots
      ensures w[i] != w[j]
    {
      ModOfMod(first + i, slots, WRAP / slots);
      ModOfMod(first + j, slots, WRAP / slots);
      ModDistinct(first + i, first + j, slots);
    }
    DistinctIsFair(first, slots);
  }

  /** The slot of the k-th ticket, given the ticket's quotient and remainder. */
  lemma SlotInWindow(first: Uint64, slots: nat, k: nat, q: nat, r: nat)
    requires k < slots <= WRAP && r < slots
    requires q * slots + r == if first + k < WRAP then first + k else first + k - WRAP
    ensures Window(first, slots)[k] == r
  {
    var ticket := q * slots + r;
    assert (first + k) % WRAP == ticket;
    ModUnique(ticket, slots, q, r);
  }

  /** Across the wrap of a counter whose range the slots do not divide, some slot comes twice. */
  lemma UnfairAcrossWrap(first: Uint64, slots: nat)
    requires 0 < slots < WRAP < first + slots && WRAP % slots != 0
    ensures !FairWindow(first, slots)
  {
    var before := WRAP - first;             // draws before the wrap: 0 < before < slots
    var m, q := WRAP % slots, WRAP / slots;
    assert WRAP == q * slots + m && 0 < m < slots;
    assert 0 * slots == 0;
    if m <= before {
      // the ticket q * slots comes before the wrap, ticket 0 right after it
      SlotInWindow(first, slots, before - m, q, 0);
      SlotInWindow(first, slots, before, 0, 0);
      RepeatedIsUnfair(first, slots, before - m, before);
    } else {
      SlotInWindow(first, slots, 0, q, m - before);
      SlotInWindow(first, slots, m, 0, m - before);
      RepeatedIsUnfair(first, slots, 0, m);
    }
  }

  /** Consecutive tickets are fair exactly when the counter does not wrap among them or the number
      of slots divides 2^64. */
  lemma FairIff(first: Uint64, slots: nat)
    requires 0 < slots < WRAP
    ensures FairWindow(first, slots) <==> first + slots <= WRAP || WRAP % slots == 0
  {
    if first + slots <= WRAP {
      FairWithoutWrap(first, slots);
    } else if WRAP % slots == 0 {
      FairWhenDividing(first, slots);
    } else {
      UnfairAcrossWrap(first, slots);
    }
  }

  // ---------------------------------------------------------------- weighted fairness

  /** The record that a slot of the cached list belongs to, seen through the cache's arrangement. */
  function RecordOfSlot(recs: seq<Srv>, arrangement: seq<nat>, slot: nat): nat
    requires IsPermutation(arrangement, |Owners(recs)|) && slot < |arrangement|
  {
    Owners(recs)[arrangement[slot]]
  }

  /** The hosts drawn are hosts of the records the draws are counted for. */
  lemma RecordOfSlotServesHost(recs: seq<Srv>, hostOf: Srv -> string, arrangement: seq<nat>, slot: nat)
    requires IsPermutation(arrangement, |Slots(recs, hostOf)|) && slot < |arrangement|
    ensures |Slots(recs, hostOf)| == |Owners(recs)|
    ensures var r := RecordOfSlot(recs, arrangement, slot);
      && r < |Top(recs)|
      && Rearranged(Slots(recs, hostOf), arrangement)[slot] == hostOf(Top(recs)[r])
  {
    SlotsFollowOwners(recs, hostOf);
  }

  ghost predicate SlotsBelow(log: seq<Draw>, n: nat) {
    forall k :: 0 <= k < |log| ==> log[k].slot < n
  }

  /** The records served by a stretch of draws. */
  ghost function Served(recs: seq<Srv>, arrangement: seq<nat>, draws: seq<Draw>): (r: seq<nat>)
    requires IsPermutation(arrangement, |Owners(recs)|) && SlotsBelow(draws, |arrangement|)
    ensures |r| == |draws|
  {
    seq(|draws|, k requires 0 <= k < |draws| => RecordOfSlot(recs, arrangement, draws[k].slot))
  }

  /** The draws `from .. from + n` at the end of a run. */
  function Stretch(run: seq<State>, from: nat, n: nat): seq<Draw>
    requires run != [] && from + n <= |run[|run| - 1].log|
  {
    run[|run| - 1].log[from..from + n]
  }

  lemma WrapShift(a: nat, k: nat)
    ensures (a % WRAP + k) % WRAP == (a + k) % WRAP
  {
  }

  lemma {:induction false} StretchIsWindow(run: seq<State>, start: Uint64, from: nat, n: nat)
    requires n > 0 && Run(run, start, n) && from + n <= |run[|run| - 1].log|
    ensures forall k :: 0 <= k < n ==> Stretch(run, from, n)[k].slot == Window((start + from) % WRAP, n)[k]
  {
    TicketsAreConsecutive(run, start, n);
    var log := run[|run| - 1].log;
    forall k | 0 <= k < n
      ensures Stretch(run, from, n)[k].slot == Window((start + from) % WRAP, n)[k]
    {
      WrapShift(start + from, k);
      assert start + (from + k) == start + from + k;
      assert Stretch(run, from, n)[k] == log[from + k];
    }
  }

  lemma ServedIsMap(recs: seq<Srv>, arrangement: seq<nat>, draws: seq<Draw>, slots: seq<nat>, owner: nat -> nat)
    requires IsPermutation(arrangement, |Owners(recs)|) && |draws| == |slots| && SlotsBelow(draws, |arrangement|)
    requires forall k :: 0 <= k < |draws| ==> draws[k].slot == slots[k]
    requires forall slot: nat :: slot < |arrangement| ==> owner(slot) == RecordOfSlot(recs, arrangement, slot)
    ensures Map(owner, slots) == Served(recs, arrangement, draws)
  {
  }

  /** A fair window serves every record as often as it owns slots, whatever the arrangement. */
  lemma {:induction false} FairWindowServes(
    recs: seq<Srv>, arrangement: seq<nat>, draws: seq<Draw>, first: Uint64, i: nat)
    requires Owners(recs) != [] && IsPermutation(arrangement, |Owners(recs)|)
    requires FairWindow(first, |Owners(recs)|) && |draws| == |Owners(recs)|
    requires forall k :: 0 <= k < |draws| ==> draws[k].slot == Window(first, |Owners(recs)|)[k]
    requires i < |Top(recs)|
    ensures SlotsBelow(draws, |arrangement|)
    ensures multiset(Served(recs, arrangement, draws))[i] == SlotCounts(recs)[i]
  {
    var owners := Owners(recs);
    var n := |owners|;
    var owner := (slot: nat) => if slot < n then owners[arrangement[slot]] else 0;
    MapMultiset(owner, Window(first, n), Range(n));
    ServedIsMap(recs, arrangement, draws, Window(first, n), owner);
    PermutedMultiset(owners, arrangement, Map(owner, Range(n)));
    OwnerCounts(recs, i);
  }

  /** Weighted fairness. Over one fixed cached list, in every interleaving of callers, any L
      consecutive draws (L slots) that do not cross the counter's wrap serve every record exactly
      as often as its compacted weight says; the arrangement of the list, shuffled or not, is
      irrelevant. */
  lemma {:induction false} WeightedFairness(
    recs: seq<Srv>, perm: nat -> seq<nat>, run: seq<State>, start: Uint64, from: nat, i: nat)
    requires Shuffles(perm) && 0 < |Owners(recs)| < WRAP
    requires Run(run, start, |Owners(recs)|)
    requires from + |Owners(recs)| <= |run[|run| - 1].log|
    requires (start + from) % WRAP + |Owners(recs)| <= WRAP || WRAP % |Owners(recs)| == 0
    requires i < |Top(recs)|
    ensures var n := |Owners(recs)|;
      var arrangement := Arrangement(n, perm);
      && IsPermutation(arrangement, n)
      && SlotsBelow(Stretch(run, from, n), n)
      && multiset(Served(recs, arrangement, Stretch(run, from, n)))[i] == SlotCounts(recs)[i]
  {
    var n := |Owners(recs)|;
    var first := (start + from) % WRAP;
    ArrangementIsPermutation(n, perm);
    StretchIsWindow(run, start, from, n);
    FairIff(first, n);
    FairWindowServes(recs, Arrangement(n, perm), Stretch(run, from, n), first, i);
  }

  // ---------------------------------------------------------------- record by record, across the wrap

  /** The records of the slots, in the order in which the cached list shows them. */
  function Arranged(recs: seq<Srv>, arrangement: seq<nat>): (owners: seq<nat>)
    requires IsPermutation(arrangement, |Owners(recs)|)
    ensures |owners| == |arrangement|
    ensures forall k :: 0 <= k < |owners| ==> owners[k] == RecordOfSlot(recs, arrangement, k)
  {
    seq(|arrangement|, k requires 0 <= k < |arrangement| => RecordOfSlot(recs, arrangement, k))
  }

  /** The a elements that end just before position m, if the end of s is followed by its start again. */
  function Before<T>(s: seq<T>, m: nat, a: nat): (r: seq<T>)
    requires a <= |s| && s != []
    ensures |r| == a && forall k :: 0 <= k < a ==> r[k] == s[(m + |s| - a + k) % |s|]
  {
    seq(a, k requires 0 <= k < a => s[(m + |s| - a + k) % |s|])
  }

  /** What the draws before the wrap serve: as many of `owners` as there are such draws, ending just before
      position 2^64 mod L. */
  function BeforeWrap(owners: seq<nat>, first: Uint64): (r: seq<nat>)
    requires 0 < |owners| < WRAP < first + |owners|
    ensures |r| == WRAP - first
  {
    Before(owners, WRAP % |owners|, WRAP - first)
  }

  lemma ModShift(c: nat, y: nat, n: nat)
    requires n > 0
    ensures (c * n + y) % n == y % n
  {
    assert y == n * (y / n) + y % n;
    MulDistributes(c, y / n, n);
    ModUnique(c * n + y, n, c + y / n, y % n);
  }

  /** The slot of the k-th ticket of a window that crosses the wrap. */
  lemma SlotAcrossWrap(first: Uint64, n: nat, k: nat)
    requires 0 < n < WRAP < first + n && k < n
    ensures var a := WRAP - first;
      Window(first, n)[k] == if k < a then (WRAP % n + n - a + k) % n else k - a
  {
    var a, m, q := WRAP - first, WRAP % n, WRAP / n;
    assert WRAP == q * n + m;
    if k < a {
      ModUnique(first + k, WRAP, 0, first + k);
      DivBounds(WRAP, n);
      MulCancels(0, q, n);
      MulDistributes(q - 1, 1, n);
      ModShift(q - 1, m + n - a + k, n);
    } else {
      ModUnique(first + k, WRAP, 1, k - a);
      ModUnique(k - a, n, 0, k - a);
    }
  }

  lemma ServedAcrossWrap(recs: seq<Srv>, arrangement: seq<nat>, draws: seq<Draw>, first: Uint64)
    requires Owners(recs) != [] && IsPermutation(arrangement, |Owners(recs)|)
      && |draws| == |Owners(recs)| < WRAP < first + |draws|
    requires forall k :: 0 <= k < |draws| ==> draws[k].slot == Window(first, |draws|)[k]
    ensures SlotsBelow(draws, |arrangement|)
    ensures var owners := Arranged(recs, arrangement);
      Served(recs, arrangement, draws) == BeforeWrap(owners, first) + owners[..|owners| - (WRAP - first)]
  {
    var n, a, owners := |draws|, WRAP - first, Arranged(recs, arrangement);
    forall k | 0 <= k < n
      ensures draws[k].slot < n
      ensures owners[draws[k].slot] == (BeforeWrap(owners, first) + owners[..n - a])[k]
    {
      SlotAcrossWrap(first, n, k);
    }
  }

  /** The record's slots among the last a, with those before them, are all it has. */
  lemma CountsAgreeIff(owners: seq<nat>, before: seq<nat>, served: seq<nat>, a: nat, i: nat)
    requires a <= |owners| && served == before + owners[..|owners| - a]
    ensures multiset(served)[i] == multiset(owners)[i] <==> multiset(before)[i] == multiset(owners[|owners| - a..])[i]
  {
    assert owners == owners[..|owners| - a] + owners[|owners| - a..];
  }

  /** What the draws before the wrap serve has the record as often as the last as many slots. */
  ghost predicate FairAcross(owners: seq<nat>, first: Uint64, i: nat)
    requires 0 < |owners| < WRAP < first + |owners|
  {
    multiset(BeforeWrap(owners, first))[i] == multiset(owners[|owners| - (WRAP - first)..])[i]
  }

  lemma ArrangedCounts(recs: seq<Srv>, arrangement: seq<nat>, i: nat)
    requires IsPermutation(arrangement, |Owners(recs)|) && i < |Top(recs)|
    ensures multiset(Arranged(recs, arrangement))[i] == SlotCounts(recs)[i]
  {
    PermutedMultiset(Owners(recs), arrangement, Arranged(recs, arrangement));
    OwnerCounts(recs, i);
  }

  lemma {:induction false} RecordFairAcrossWrap(recs: seq<Srv>, arrangement: seq<nat>, draws: seq<Draw>,
      first: Uint64, i: nat)
    requires Owners(recs) != [] && IsPermutation(arrangement, |Owners(recs)|)
      && |draws| == |Owners(recs)| < WRAP < first + |draws|
    requires forall k :: 0 <= k < |draws| ==> draws[k].slot == Window(first, |draws|)[k]
    requires i < |Top(recs)|
    ensures SlotsBelow(draws, |arrangement|)
    ensures multiset(Served(recs, arrangement, draws))[i] == SlotCounts(recs)[i] <==>
      FairAcross(Arranged(recs, arrangement), first, i)
  {
    var owners := Arranged(recs, arrangement);
    ServedAcrossWrap(recs, arrangement, draws, first);
    ArrangedCounts(recs, arrangement, i);
    CountsAgreeIff(owners, BeforeWrap(owners, first), Served(recs, arrangement, draws), WRAP - first, i);
  }

  /** Exactly when a record gets its weight out of L consecutive draws: if they do not cross the counter's
      wrap, or cross it fairly for that record. */
  lemma {:induction false} WeightedFairnessIff(
    recs: seq<Srv>, perm: nat -> seq<nat>, run: seq<State>, start: Uint64, from: nat, i: nat)
    requires Shuffles(perm) && 0 < |Owners(recs)| < WRAP
    requires Run(run, start, |Owners(recs)|)
    requires from + |Owners(recs)| <= |run[|run| - 1].log|
    requires i < |Top(recs)|
    ensures var n, first := |Owners(recs)|, (start + from) % WRAP;
      var arrangement := Arrangement(n, perm);
      && IsPermutation(arrangement, n)
      && SlotsBelow(Stretch(run, from, n), n)
      && (multiset(Served(recs, arrangement, Stretch(run, from, n)))[i] == SlotCounts(recs)[i] <==>
            first + n <= WRAP || FairAcross(Arranged(recs, arrangement), first, i))
  {
    var n, first := |Owners(recs)|, (start + from) % WRAP;
    var arrangement := Arrangement(n, perm);
    ArrangementIsPermutation(n, perm);
    StretchIsWindow(run, start, from, n);
    if first + n <= WRAP {
      FairWithoutWrap(first, n);
      FairWindowServes(recs, arrangement, Stretch(run, from, n), first, i);
    } else {
      RecordFairAcrossWrap(recs, arrangement, Stretch(run, from, n), first, i);
    }
  }
}
