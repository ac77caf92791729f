/** What `sequentialMergerConfig` (proxy/merging.go) makes of an endpoint's configuration: for every
    backend, the values of earlier responses that are to be copied into its parameters. The matches of
    the two regular expressions are inputs. */
module SequentialConfig {
  import opened Options
  import opened JsonTree
  import opened Merging
  import opened SequentialRun
  import opened SequentialLog

  const MAX_INT: int := 0x7FFF_FFFF_FFFF_FFFF

  predicate IsDigit(c: char) {
    '0' <= c <= '9'
  }

  predicate AllDigits(s: string) {
    forall k :: 0 <= k < |s| ==> IsDigit(s[k])
  }

  /** The two groups of a match: the digits after `Resp`, and what follows, if anything. */
  datatype Groups = Groups(digits: string, tail: string)

  type Match = m: Groups | m.digits != "" && AllDigits(m.digits) witness Groups("0", "")

  function NumberOf(s: string): nat
    requires AllDigits(s)
    decreases |s|
  {
    if s == "" then 0 else 10 * NumberOf(s[..|s| - 1]) + (s[|s| - 1] as int - '0' as int)
  }

  /** Go's `strconv.Atoi` on digits, which fails if the number does not fit. */
  function Atoi(digits: string): Option<nat>
    requires AllDigits(digits)
  {
    if NumberOf(digits) <= MAX_INT then Some(NumberOf(digits)) else None
  }

  /** The decimal digits of a number. */
  function Decimal(n: nat): (s: string)
    ensures s != "" && AllDigits(s)
  {
    if n < 10 then [n as char + '0'] else Decimal(n / 10) + [(n % 10) as char + '0']
  }

  /** Reading the decimal digits of a number, with zeros in front or not, gives the number. */
  lemma {:induction false} NumberOfDecimal(n: nat, zeros: string)
    requires forall k :: 0 <= k < |zeros| ==> zeros[k] == '0'
    ensures AllDigits(zeros + Decimal(n)) && NumberOf(zeros + Decimal(n)) == n
    decreases n
  {
    var s := zeros + Decimal(n);
    if n < 10 {
      ZerosAreZero(zeros);
      assert s[..|s| - 1] == zeros;
    } else {
      NumberOfDecimal(n / 10, zeros);
      assert s[..|s| - 1] == zeros + Decimal(n / 10);
    }
  }

  lemma {:induction false} ZerosAreZero(zeros: string)
    requires forall k :: 0 <= k < |zeros| ==> zeros[k] == '0'
    ensures AllDigits(zeros) && NumberOf(zeros) == 0
    decreases |zeros|
  {
    if zeros != "" {
      ZerosAreZero(zeros[..|zeros| - 1]);
    }
  }

  function DestKey(m: Match): string {
    "Resp" + m.digits + if m.tail != "" then "_" + m.tail else ""
  }

  /** The replacement a match stands for; out of range numbers, and for propagated parameters also
      backends that do not exist, stand for none. */
  function Meaning(m: Match, limit: Option<nat>): Option<Replacement> {
    var n := Atoi(m.digits);
    if n.None? || (limit.Some? && n.value >= limit.value) then None
    else Some(Replacement(n.value, DestKey(m), Split(m.tail, '.'), m.tail == ""))
  }

  function Meanings(ms: seq<Match>, limit: Option<nat>): seq<Replacement>
    decreases |ms|
  {
    if ms == [] then []
    else
      var last := Meaning(ms[|ms| - 1], limit);
      Meanings(ms[..|ms| - 1], limit) + if last.Some? then [last.value] else []
  }

  function Flat(mss: seq<seq<Match>>): seq<Match>
    decreases |mss|
  {
    if mss == [] then [] else Flat(mss[..|mss| - 1]) + mss[|mss| - 1]
  }

  lemma MeaningsStep(ms: seq<Match>, k: nat, limit: Option<nat>)
    requires k < |ms|
    ensures Meaning(ms[k], limit).None? ==> Meanings(ms[..k + 1], limit) == Meanings(ms[..k], limit)
    ensures Meaning(ms[k], limit).Some? ==>
      Meanings(ms[..k + 1], limit) == Meanings(ms[..k], limit) + [Meaning(ms[k], limit).value]
  {
    assert ms[..k + 1][..k] == ms[..k] && ms[..k + 1][k] == ms[k];
    assert Meanings(ms[..k], limit) + [] == Meanings(ms[..k], limit);
  }

  lemma {:induction false} MeaningsConcat(ms: seq<Match>, ms': seq<Match>, limit: Option<nat>)
    ensures Meanings(ms + ms', limit) == Meanings(ms, limit) + Meanings(ms', limit)
    decreases |ms'|
  {
    var all := ms + ms';
    if ms' == [] {
      assert all == ms;
    } else {
      assert all[..|all| - 1] == ms + ms'[..|ms'| - 1];
      MeaningsConcat(ms, ms'[..|ms'| - 1], limit);
    }
  }

  /** What is listed for backend i: the holes of its own URL pattern, whatever backend they name, and,
      unless it is the first, the propagated parameters that name an existing backend. */
  function Listed(urls: seq<seq<Match>>, propagated: seq<seq<Match>>, i: nat): seq<Replacement>
    requires i < |urls|
  {
    Meanings(urls[i], None) + if i > 0 then Meanings(Flat(propagated), Some(|urls|)) else []
  }

  /** The loop over the matches of one pattern. */
  method AppendMeanings(rs: seq<Replacement>, ms: seq<Match>, limit: Option<nat>) returns (all: seq<Replacement>)
    ensures all == rs + Meanings(ms, limit)
  {
    all := rs;
    for k := 0 to |ms|
      invariant all == rs + Meanings(ms[..k], limit)
    {
      MeaningsStep(ms, k, limit);
      var m := ms[k];
      var n := Atoi(m.digits);
      if n.None? || (limit.Some? && n.value >= limit.value) {
        continue;
      }
      var key := "Resp" + m.digits;
      if m.tail != "" {
        key := key + "_" + m.tail;
      }
      assert key == DestKey(m);
      all := all + [Replacement(n.value, key, Split(m.tail, '.'), m.tail == "")];
    }
    assert ms[..|ms|] == ms;
  }

  /** `urls[i]` are the matches of backend i's URL pattern, `propagated[k]` those of the k-th propagated
      parameter. */
  method SequentialMergerConfig(urls: seq<seq<Match>>, propagated: seq<seq<Match>>) returns (rs: seq<seq<Replacement>>)
    ensures |rs| == |urls|
    ensures forall i :: 0 <= i < |rs| ==> rs[i] == Listed(urls, propagated, i)
  {
    rs := [];
    for i := 0 to |urls|
      invariant |rs| == i
      invariant forall k :: 0 <= k < i ==> rs[k] == Listed(urls, propagated, k)
    {
      var own := AppendMeanings([], urls[i], None);
      if i > 0 {
        for k := 0 to |propagated|
          invariant own == Meanings(urls[i], None) + Meanings(Flat(propagated[..k]), Some(|urls|))
        {
          assert propagated[..k + 1][..k] == propagated[..k];
          MeaningsConcat(Flat(propagated[..k]), propagated[k], Some(|urls|));
          own := AppendMeanings(own, propagated[k], Some(|urls|));
        }
        assert propagated[..|propagated|] == propagated;
      }
      rs := rs + [own];
    }
  }

  // ---------------------------------------------------------------- destinations

  function DigitsAhead(s: string): nat {
    if s == "" || !IsDigit(s[0]) then 0 else 1 + DigitsAhead(s[1..])
  }

  lemma {:induction false} DigitsEnd(d: string, t: string)
    requires AllDigits(d) && (t == "" || !IsDigit(t[0]))
    ensures DigitsAhead(d + t) == |d|
    decreases |d|
  {
    if d == "" {
      assert d + t == t;
    } else {
      assert (d + t)[1..] == d[1..] + t;
      DigitsEnd(d[1..], t);
    }
  }

  /** The name of a destination tells which value of which backend it stands for. */
  lemma DestKeyDetermines(m: Match, m': Match)
    requires DestKey(m) == DestKey(m')
    ensures m == m'
  {
    var t, t' := if m.tail != "" then "_" + m.tail else "", if m'.tail != "" then "_" + m'.tail else "";
    assert DestKey(m) == "Resp" + (m.digits + t) && DestKey(m') == "Resp" + (m'.digits + t');
    assert ("Resp" + (m.digits + t))[4..] == m.digits + t && ("Resp" + (m'.digits + t'))[4..] == m'.digits + t';
    DigitsEnd(m.digits, t);
    DigitsEnd(m'.digits, t');
    assert (m.digits + t)[|m.digits|..] == t && (m'.digits + t')[|m'.digits|..] == t';
    assert (m.digits + t)[..|m.digits|] == m.digits && (m'.digits + t')[..|m'.digits|] == m'.digits;
    assert m.tail == (if t == "" then "" else t[1..]) && m'.tail == (if t' == "" then "" else t'[1..]);
  }

  /** A replacement is listed exactly if a match stands for it. */
  lemma {:induction false} MeaningsOf(ms: seq<Match>, limit: Option<nat>, r: Replacement)
    ensures r in Meanings(ms, limit) <==> exists k :: 0 <= k < |ms| && Meaning(ms[k], limit) == Some(r)
    decreases |ms|
  {
    if ms != [] {
      var before := ms[..|ms| - 1];
      MeaningsOf(before, limit, r);
      assert forall k :: 0 <= k < |before| ==> before[k] == ms[k];
    }
  }

  /** The replacement that a match describes: the backend's number, the parameter to fill, the keys of the
      path, and whether the whole response is meant; if the number fits into 64 bits. */
  ghost predicate Describes(m: Match, r: Replacement) {
    && NumberOf(m.digits) <= 0x7FFF_FFFF_FFFF_FFFF
    && r.backendIndex == NumberOf(m.digits)
    && r.destination == (if m.tail == "" then "Resp" + m.digits else "Resp" + m.digits + "_" + m.tail)
    && r.source == Split(m.tail, '.') && (r.fullResponse <==> m.tail == "")
  }

  ghost predicate DescribedBy(ms: seq<Match>, r: Replacement) {
    exists m :: m in ms && Describes(m, r)
  }

  /** A propagated parameter that names an existing backend describes it. */
  ghost predicate Propagates(propagated: seq<seq<Match>>, backends: nat, r: Replacement) {
    r.backendIndex < backends && exists k :: 0 <= k < |propagated| && DescribedBy(propagated[k], r)
  }

  lemma MeaningDescribes(m: Match, limit: Option<nat>, r: Replacement)
    ensures Meaning(m, limit) == Some(r) <==> Describes(m, r) && (limit.Some? ==> r.backendIndex < limit.value)
  {
    assert "Resp" + m.digits + "" == "Resp" + m.digits;
    assert ("Resp" + m.digits) + ("_" + m.tail) == "Resp" + m.digits + "_" + m.tail;
  }

  lemma {:induction false} MeaningsDescribe(ms: seq<Match>, limit: Option<nat>, r: Replacement)
    ensures r in Meanings(ms, limit) <==> DescribedBy(ms, r) && (limit.Some? ==> r.backendIndex < limit.value)
  {
    MeaningsOf(ms, limit, r);
    forall m
      ensures Meaning(m, limit) == Some(r) <==> Describes(m, r) && (limit.Some? ==> r.backendIndex < limit.value)
    {
      MeaningDescribes(m, limit, r);
    }
  }

  lemma {:induction false} FlatMembers(mss: seq<seq<Match>>, m: Match)
    ensures m in Flat(mss) <==> exists k :: 0 <= k < |mss| && m in mss[k]
    decreases |mss|
  {
    if mss != [] {
      var n := |mss| - 1;
      FlatMembers(mss[..n], m);
      assert forall k :: 0 <= k < n ==> mss[..n][k] == mss[k];
    }
  }

  lemma FlatDescribes(propagated: seq<seq<Match>>, backends: nat, r: Replacement)
    ensures r in Meanings(Flat(propagated), Some(backends)) <==> Propagates(propagated, backends, r)
  {
    MeaningsDescribe(Flat(propagated), Some(backends), r);
    if m :| m in Flat(propagated) && Describes(m, r) {
      FlatMembers(propagated, m);
      var k :| 0 <= k < |propagated| && m in propagated[k];
      assert DescribedBy(propagated[k], r);
    }
    if k :| 0 <= k < |propagated| && DescribedBy(propagated[k], r) {
      var m :| m in propagated[k] && Describes(m, r);
      FlatMembers(propagated, m);
    }
  }

  /** What is listed for backend i, exactly: what the holes of its own pattern describe, whatever backend they
      name, and, unless it is the first, what the propagated parameters that name an existing backend
      describe; the former before the latter. */
  lemma {:induction false} ListedIff(urls: seq<seq<Match>>, propagated: seq<seq<Match>>, i: nat) returns (own: nat)
    requires i < |urls|
    ensures var rs := Listed(urls, propagated, i);
      && own <= |rs|
      && (forall k :: 0 <= k < own ==> DescribedBy(urls[i], rs[k]))
      && (forall k :: own <= k < |rs| ==> i > 0 && Propagates(propagated, |urls|, rs[k]))
      && (forall r :: DescribedBy(urls[i], r) ==> r in rs[..own])
      && (forall r :: i > 0 && Propagates(propagated, |urls|, r) ==> r in rs[own..])
  {
    var rs, mine := Listed(urls, propagated, i), Meanings(urls[i], None);
    var others := if i > 0 then Meanings(Flat(propagated), Some(|urls|)) else [];
    own := |mine|;
    assert rs == mine + others && rs[..own] == mine && rs[own..] == others;
    forall r
      ensures r in mine <==> DescribedBy(urls[i], r)
      ensures r in others <==> i > 0 && Propagates(propagated, |urls|, r)
    {
      MeaningsDescribe(urls[i], None, r);
      FlatDescribes(propagated, |urls|, r);
    }
    forall k | 0 <= k < |rs|
      ensures if k < own then DescribedBy(urls[i], rs[k]) else i > 0 && Propagates(propagated, |urls|, rs[k])
    {
      assert k < own ==> rs[k] in mine;
      assert k >= own ==> rs[k] in others;
    }
  }

  ghost predicate StandsFor(m: Match, r: Replacement) {
    Meaning(m, None) == Some(r)
  }

  lemma ListedStandsFor(urls: seq<seq<Match>>, propagated: seq<seq<Match>>, i: nat, r: Replacement) returns (m: Match)
    requires i < |urls| && r in Listed(urls, propagated, i)
    ensures StandsFor(m, r)
  {
    MeaningsOf(urls[i], None, r);
    MeaningsOf(Flat(propagated), Some(|urls|), r);
    if r in Meanings(urls[i], None) {
      var k :| 0 <= k < |urls[i]| && Meaning(urls[i][k], None) == Some(r);
      m := urls[i][k];
    } else {
      var k :| 0 <= k < |Flat(propagated)| && Meaning(Flat(propagated)[k], Some(|urls|)) == Some(r);
      m := Flat(propagated)[k];
    }
  }

  /** Whatever the configuration: every list of keys to look up is non-empty, and a destination stands
      for one value of one backend wherever it is listed. This is what `sequentialMerge` relies on. */
  lemma ConfigurationIsSound(urls: seq<seq<Match>>, propagated: seq<seq<Match>>, rs: seq<seq<Replacement>>)
    requires |rs| == |urls| && forall i :: 0 <= i < |rs| ==> rs[i] == Listed(urls, propagated, i)
    ensures forall i, k :: 0 <= i < |rs| && 0 <= k < |rs[i]| ==> rs[i][k].source != []
    ensures DestinationsAgree(rs)
  {
    forall i, k | 0 <= i < |rs| && 0 <= k < |rs[i]|
      ensures rs[i][k].source != []
    {
      var m := ListedStandsFor(urls, propagated, i, rs[i][k]);
    }
    forall i, k, j, l | 0 <= i < |rs| && 0 <= k < |rs[i]| && 0 <= j < |rs| && 0 <= l < |rs[j]| &&
        rs[i][k].destination == rs[j][l].destination
      ensures rs[i][k] == rs[j][l]
    {
      var m := ListedStandsFor(urls, propagated, i, rs[i][k]);
      var m' := ListedStandsFor(urls, propagated, j, rs[j][l]);
      DestKeyDetermines(m, m');
    }
  }

  /** Propagated parameters never name a backend that does not exist; holes of a URL pattern may, and
      are then never filled. */
  lemma PropagatedExist(urls: seq<seq<Match>>, propagated: seq<seq<Match>>, i: nat, r: Replacement)
    requires i < |urls| && r in Listed(urls, propagated, i) && r.backendIndex >= |urls|
    ensures r in Meanings(urls[i], None)
  {
    MeaningsOf(Flat(propagated), Some(|urls|), r);
  }

  /** With a configuration, a value once received is kept without further conditions: every later
      backend that lists the destination has it in its parameters. */
  lemma ConfiguredDestinationKeeps(
    setup: Setup, events: seq<Event>, invocations: seq<nat>, registry: Params, captures: seq<Capture>, k: nat, m: nat,
    r: Replacement)
    requires LogOk(setup, events, invocations, registry, captures) && DestinationsAgree(setup.replacements)
    requires k < |captures| && captures[k].value != "" && captures[k].at <= m < |events| && m < |setup.replacements|
    requires r in setup.replacements[m] && r.destination == captures[k].r.destination
    ensures r.destination in SeenParams(events[m]) && SeenParams(events[m])[r.destination] == captures[k].value
  {
    var c := captures[k];
    assert CaptureOk(setup, events, c);
    OneOfAName(setup.replacements, m, r, c.at, c.r);
    var n :| 0 <= n < |setup.replacements[m]| && setup.replacements[m][n] == r;
    DestinationKeeps(setup, events, invocations, registry, captures, k, m, n);
  }
}
