/** Runs of `sequentialMerge` (proxy/merging.go) as values: what happened to each backend, what the
    shared maps hold because the default combiner writes into the first merged one, and what the
    parameter lookup finds there. */
module SequentialRun {
  import opened Options
  import opened JsonTree
  import opened Merging
  import opened Permutations

  type Params = map<string, string>

  /** One step of the loop, for the backend of the same index: its call, with the parameters and the
      registry it saw and the message it produced, or its being left out by its filter. */
  datatype Event =
    | Called(params: Params, registry: Params, msg: Msg)
    | LeftOut(params: Params, registry: Params)

  /** A value a lookup may have to copy into a parameter. */
  datatype Replacement = Replacement(backendIndex: nat, destination: string, source: Path, fullResponse: bool)

  // ---------------------------------------------------------------- messages and verdict

  function Msgs(events: seq<Event>): seq<Msg>
    decreases |events|
  {
    if events == [] then []
    else
      var last := events[|events| - 1];
      Msgs(events[..|events| - 1]) + if last.Called? then [last.msg] else []
  }

  function LeftOutCount(events: seq<Event>): nat
    decreases |events|
  {
    if events == [] then 0
    else LeftOutCount(events[..|events| - 1]) + if events[|events| - 1].LeftOut? then 1 else 0
  }

  /** The accumulator after the events: `acc.pending` has dropped for those left out as well. */
  function AccAfter(n: nat, events: seq<Event>): Acc {
    MergeAll(Start(n - LeftOutCount(events)), Msgs(events))
  }

  lemma {:induction false} CountEvents(events: seq<Event>)
    ensures |Msgs(events)| + LeftOutCount(events) == |events|
    decreases |events|
  {
    if events != [] {
      CountEvents(events[..|events| - 1]);
    }
  }

  predicate GoesOn(e: Event) {
    e.Called? ==> e.msg.Reply? && e.msg.resp.complete
  }

  /** Only the last event may have been a failure or an incomplete response. */
  ghost predicate Proceeded(events: seq<Event>) {
    forall k :: 0 <= k < |events| - 1 ==> GoesOn(events[k])
  }

  lemma {:induction false} PendingShift(t: int, msgs: seq<Msg>)
    ensures MergeAll(Start(t - 1), msgs) == MergeAll(Start(t), msgs).(pending := MergeAll(Start(t), msgs).pending - 1)
    decreases |msgs|
  {
    if msgs != [] {
      PendingShift(t, msgs[..|msgs| - 1]);
    }
  }

  lemma EventMerges(n: nat, events: seq<Event>, e: Event)
    ensures e.Called? ==> AccAfter(n, events + [e]) == MergeOne(AccAfter(n, events), e.msg)
    ensures e.LeftOut? ==> AccAfter(n, events + [e]) == AccAfter(n, events).(pending := AccAfter(n, events).pending - 1)
  {
    var es := events + [e];
    assert es[..|es| - 1] == events;
    if e.Called? {
      assert Msgs(es)[..|Msgs(es)| - 1] == Msgs(events);
    } else {
      assert Msgs(es) == Msgs(events);
      PendingShift(n - LeftOutCount(events), Msgs(events));
    }
  }

  /** How many backends were called. */
  function CalledCount(events: seq<Event>): nat {
    |Msgs(events)|
  }

  predicate DeliveredWell(e: Event, several: bool) {
    e.Called? ==> GoodMessage(e.msg, several)
  }

  /** The errors of the accumulator are those of the events. */
  lemma EventErrors(n: nat, events: seq<Event>, e: Error)
    ensures e in AccAfter(n, events).errs <==>
      ProducedBy(events, Failure(e)) || (ProducedBy(events, NilReply) && e == ErrNullResult)
  {
    ErrorsMerged(n - LeftOutCount(events), Msgs(events), e);
    MsgsAreCalls(events, Failure(e));
    MsgsAreCalls(events, NilReply);
  }

  /** Event k brings the key. */
  ghost predicate EventBrings(events: seq<Event>, key: string, k: nat) {
    k < |events| && events[k].Called? && BringsKey(events[k].msg, key)
  }

  ghost predicate EventBringsLast(events: seq<Event>, key: string, k: nat) {
    EventBrings(events, key, k) && forall l: nat :: k < l ==> !EventBrings(events, key, l)
  }

  /** The union of the replies, event by event. */
  lemma {:induction false} UnionByEvent(events: seq<Event>, key: string)
    ensures var data := UnionOf(Replies(Msgs(events)));
      && (key in data <==> exists k: nat :: EventBringsLast(events, key, k))
      && forall k: nat :: EventBringsLast(events, key, k) ==>
           key in data && data[key] == events[k].msg.resp.data.value[key]
    decreases |events|
  {
    if events != [] {
      var n := |events| - 1;
      var before, last := events[..n], events[n];
      UnionByEvent(before, key);
      if last.Called? {
        UnionOneMore(Msgs(before), last.msg);
      } else {
        assert Msgs(before) + [] == Msgs(before);
      }
      LastEvent(events, key);
      if EventBrings(events, key, n) {
        assert EventBringsLast(events, key, n);
      } else {
        forall k: nat
          ensures EventBringsLast(events, key, k) <==> EventBringsLast(before, key, k)
        {
        }
      }
    }
  }

  lemma LastEvent(events: seq<Event>, key: string)
    requires events != []
    ensures var n := |events| - 1;
      forall k: nat :: EventBringsLast(events, key, k) <==>
        if EventBrings(events, key, n) then k == n else EventBringsLast(events[..n], key, k)
  {
    var n := |events| - 1;
    forall k: nat
      ensures EventBrings(events, key, k) <==>
        EventBrings(events[..n], key, k) || (k == n && EventBrings(events, key, n))
    {
    }
  }

  lemma EventData(n: nat, events: seq<Event>, key: string)
    requires |Replies(Msgs(events))| >= 2
    ensures var r := ResultOf(AccAfter(n, events));
      && r.Some? && r.value.data.Some?
      && (key in r.value.data.value <==> exists k: nat :: EventBringsLast(events, key, k))
      && forall k: nat :: EventBringsLast(events, key, k) ==>
           key in r.value.data.value && r.value.data.value[key] == events[k].msg.resp.data.value[key]
  {
    ResultSummary(n - LeftOutCount(events), Msgs(events));
    UnionByEvent(events, key);
  }

  ghost predicate ProducedBy(events: seq<Event>, m: Msg) {
    exists j :: 0 <= j < |events| && events[j].Called? && events[j].msg == m
  }

  lemma {:induction false} MsgsAreCalls(events: seq<Event>, m: Msg)
    ensures m in Msgs(events) <==> ProducedBy(events, m)
    decreases |events|
  {
    if events != [] {
      var before, last := events[..|events| - 1], events[|events| - 1];
      MsgsAreCalls(before, m);
      if ProducedBy(before, m) {
        var j :| 0 <= j < |before| && before[j].Called? && before[j].msg == m;
        assert events[j] == before[j];
      }
      if ProducedBy(events, m) {
        var j :| 0 <= j < |events| && events[j].Called? && events[j].msg == m;
        assert j < |before| ==> before[j] == events[j];
      }
      assert last.Called? && last.msg == m ==> events[|events| - 1].msg == m;
    }
  }

  /** The verdict of a run: a result that is there is complete exactly if the loop came to its end,
      so that every backend its filter let through was called, and every call delivered a complete
      response, with data if two or more did. */
  lemma {:induction false} SequentialVerdict(n: nat, events: seq<Event>)
    requires |events| <= n
    ensures var r, several := ResultOf(AccAfter(n, events)), CalledCount(events) >= 2;
      && (r.None? <==> Replies(Msgs(events)) == [])
      && (r.Some? ==> (r.value.complete <==>
            |events| == n && forall k :: 0 <= k < |events| ==> DeliveredWell(events[k], several)))
  {
    var ms := Msgs(events);
    CountEvents(events);
    ResultSummary(n - LeftOutCount(events), ms);
    GoodMessages(ms);
    var several := |ms| >= 2;
    if forall m :: m in ms ==> GoodMessage(m, several) {
      forall k | 0 <= k < |events|
        ensures DeliveredWell(events[k], several)
      {
        if events[k].Called? {
          assert ProducedBy(events, events[k].msg);
          MsgsAreCalls(events, events[k].msg);
        }
      }
    }
    if forall k :: 0 <= k < |events| ==> DeliveredWell(events[k], several) {
      forall m | m in ms
        ensures GoodMessage(m, several)
      {
        MsgsAreCalls(events, m);
        var j :| 0 <= j < |events| && events[j].Called? && events[j].msg == m;
        assert DeliveredWell(events[j], several);
      }
    }
  }

  lemma {:induction false} SomeReplyEvent(events: seq<Event>)
    ensures Replies(Msgs(events)) != [] <==> exists k :: 0 <= k < |events| && events[k].Called? && events[k].msg.Reply?
  {
    var ms := Msgs(events);
    SomeReply(ms);
    if k :| 0 <= k < |ms| && ms[k].Reply? {
      MsgsAreCalls(events, ms[k]);
    }
    if k :| 0 <= k < |events| && events[k].Called? && events[k].msg.Reply? {
      assert ProducedBy(events, events[k].msg);
      MsgsAreCalls(events, events[k].msg);
    }
  }

  // ---------------------------------------------------------------- lookup

  function Field(data: Fields, key: string): Option<Json> {
    if key in data then Some(data[key]) else None
  }

  /** As far down as the keys lead from dictionary to dictionary; the walk stops where it fails. */
  function Walk(data: Fields, keys: Path): Fields
    decreases |keys|
  {
    if keys != [] && keys[0] in data && data[keys[0]].Obj? then Walk(data[keys[0]].m, keys[1..]) else data
  }

  /** The value the lookup takes: the last key, in the deepest dictionary reached. */
  function Lookup(data: Fields, source: Path): Option<Json>
    requires source != []
  {
    Field(Walk(data, source[..|source| - 1]), source[|source| - 1])
  }

  /** The walk ends in the dictionary at the longest prefix of the keys that leads to one. */
  lemma {:induction false} WalkReaches(data: Fields, keys: Path) returns (k: nat)
    ensures k <= |keys| && HasObj(Obj(data), keys[..k]) && Get(Obj(data), keys[..k]) == Some(Obj(Walk(data, keys)))
    ensures k < |keys| ==> !HasObj(Obj(data), keys[..k + 1])
    decreases |keys|
  {
    if keys != [] && keys[0] in data && data[keys[0]].Obj? {
      var k' := WalkReaches(data[keys[0]].m, keys[1..]);
      k := k' + 1;
      assert keys[..k][1..] == keys[1..][..k'];
      KindAtStep(Obj(data), keys[..k]);
      if k < |keys| {
        assert keys[..k + 1][1..] == keys[1..][..k' + 1];
        KindAtStep(Obj(data), keys[..k + 1]);
      }
    } else {
      k := 0;
      if keys != [] {
        assert keys[..1][1..] == [];
        KindAtStep(Obj(data), keys[..1]);
      }
    }
  }

  /** Where the whole path exists, the lookup takes the value at its end. */
  lemma {:induction false} LookupOfWholePath(data: Fields, source: Path)
    requires source != [] && Get(Obj(data), source).Some?
    ensures Lookup(data, source) == Some(Get(Obj(data), source).value)
    decreases |source|
  {
    var k := source[0];
    if |source| == 1 {
      assert source[1..] == [] && source[..0] == [];
    } else {
      assert source[1..] != [] && Get(data[k], source[1..]).Some?;
      LookupOfWholePath(data[k].m, source[1..]);
      assert source[..|source| - 1][0] == k && source[..|source| - 1][1..] == source[1..][..|source| - 2];
    }
  }

  /** Exactly when the lookup is right: if the path exists, or if it does not and the dictionary in which
      the walk stopped does not happen to have the last key. */
  lemma {:induction false} LookupRightIff(data: Fields, source: Path)
    requires source != []
    ensures Lookup(data, source) == Get(Obj(data), source) <==>
      Get(Obj(data), source).Some? || source[|source| - 1] !in Walk(data, source[..|source| - 1])
  {
    if Get(Obj(data), source).Some? {
      LookupOfWholePath(data, source);
    }
  }

  /** It does happen: the last key is taken from further up. */
  lemma LookupTakesFromAbove() returns (data: Fields, source: Path)
    ensures source == ["a", "b", "c"] && Get(Obj(data), source).None?
    ensures Lookup(data, source) == Some(Atom(Text("up")))
  {
    data, source := map["c" := Atom(Text("up"))], ["a", "b", "c"];
    assert source[..2][0] == "a" && "a" !in data;
    assert Walk(data, source[..2]) == data;
  }

  /** A lookup, seen from the top-level dictionary: `top` is what that has for the first key, `bottom`
      what it has for the last, which is where a walk that fails at once ends up. */
  function LookupFrom(top: Option<Json>, bottom: Option<Json>, source: Path): Option<Json>
    requires source != []
  {
    if |source| == 1 then top
    else if top.Some? && top.value.Obj? then Lookup(top.value.m, source[1..])
    else bottom
  }

  lemma LookupIsFrom(data: Fields, source: Path)
    requires source != []
    ensures Lookup(data, source) == LookupFrom(Field(data, source[0]), Field(data, source[|source| - 1]), source)
  {
    if |source| == 1 {
      assert source[..0] == [];
    } else {
      assert source[..|source| - 1][0] == source[0] && source[..|source| - 1][1..] == source[1..][..|source| - 2];
    }
  }

  /** How Go prints: a number that stands alone (`strconv`), and any value by `%v`. */
  datatype Show = Show(number: int -> string, plain: Json -> string)

  /** The text of a looked-up value. */
  function Rendered(v: Json, show: Show): string {
    match v
    case Atom(Items(items)) => Joined(items, show)
    case Atom(Text(s)) => s
    case Atom(Number(n)) => show.number(n)
    case Atom(Bool(b)) => if b then "true" else "false"
    case _ => show.plain(v)
  }

  function Joined(items: seq<Json>, show: Show): string
    decreases |items|
  {
    if items == [] then ""
    else if |items| == 1 then show.plain(items[0])
    else Joined(items[..|items| - 1], show) + "," + show.plain(items[|items| - 1])
  }

  /** What the text of a value is: a string as it is, a number and a truth value by their own formats, a list
      its items with commas between them, anything else by the general format. */
  ghost predicate IsTextOf(text: string, v: Json, show: Show) {
    match v
    case Atom(Text(s)) => text == s
    case Atom(Number(n)) => text == show.number(n)
    case Atom(Bool(b)) => text == if b then "true" else "false"
    case Atom(Items(items)) => text == if items == [] then "" else Join(Map(show.plain, items), ',')
    case Atom(Nil) => text == show.plain(v)
    case Obj(_) => text == show.plain(v)
  }

  lemma RenderedIsText(v: Json, show: Show)
    ensures IsTextOf(Rendered(v, show), v, show)
  {
    if v.Atom? && v.a.Items? && v.a.items != [] {
      JoinedIsJoin(v.a.items, show);
    }
  }

  lemma {:induction false} JoinedIsJoin(items: seq<Json>, show: Show)
    requires items != []
    ensures Joined(items, show) == Join(Map(show.plain, items), ',')
    decreases |items|
  {
    var n := |items| - 1;
    if n > 0 {
      JoinedIsJoin(items[..n], show);
      assert Map(show.plain, items) == Map(show.plain, items[..n]) + [show.plain(items[n])];
      JoinSnoc(Map(show.plain, items[..n]), show.plain(items[n]), ',');
    }
  }

  lemma {:induction false} JoinSnoc(parts: seq<string>, last: string, sep: char)
    requires parts != []
    ensures Join(parts + [last], sep) == Join(parts, sep) + [sep] + last
    decreases |parts|
  {
    assert (parts + [last])[1..] == parts[1..] + [last];
    if |parts| > 1 {
      JoinSnoc(parts[1..], last, sep);
    } else {
      assert parts[1..] + [last] == [last];
    }
  }

  /** The texts of a list's items can be had back, if none of them has a comma. */
  lemma ListSplits(items: seq<Json>, show: Show)
    requires items != [] && forall k :: 0 <= k < |items| ==> ',' !in show.plain(items[k])
    ensures Split(Rendered(Atom(Items(items)), show), ',') == Map(show.plain, items)
  {
    var v, texts := Atom(Items(items)), Map(show.plain, items);
    RenderedIsText(v, show);
    forall k | 0 <= k < |texts|
      ensures ',' !in texts[k]
    {
      assert texts[k] == show.plain(items[k]);
    }
    JoinSplits(texts, ',');
  }

  // ---------------------------------------------------------------- which map the combiner writes

  /** The accumulator's map: none yet, after so many responses without data; the map of response j; or
      one of its own. */
  datatype Owner = NoMap(merged: nat) | MapOf(j: nat) | OwnMap

  function OwnerAfter(events: seq<Event>): Owner
    decreases |events|
  {
    if events == [] then NoMap(0)
    else
      var before, last := OwnerAfter(events[..|events| - 1]), events[|events| - 1];
      if last.LeftOut? || !last.msg.Reply? || !before.NoMap? then before
      else if last.msg.resp.data.Some? then MapOf(|events| - 1)
      else if before.merged == 0 then NoMap(1)
      else OwnMap
  }

  /** The data backend j delivered itself. */
  function OwnData(e: Event): Option<Fields> {
    match e
    case LeftOut(_, _) => Some(map[])
    case Called(_, _, msg) => if msg.Reply? then msg.resp.data else None
  }

  function FieldsOf(data: Option<Fields>): Fields {
    if data.Some? then data.value else map[]
  }

  /** What the map of backend j holds after the events: its own data and, if it is the accumulator's
      map, the data of every response merged since. */
  function DataAfter(events: seq<Event>, j: nat): Fields
    requires j < |events|
    decreases |events|
  {
    var n := |events| - 1;
    if n == j then FieldsOf(OwnData(events[j]))
    else
      var before := DataAfter(events[..n], j);
      if OwnerAfter(events[..n]) == MapOf(j) && events[n].Called? then before + FieldsOf(OwnData(events[n])) else before
  }

  /** One more event, seen from the maps. */
  lemma DataAfterSnoc(events: seq<Event>, e: Event, j: nat)
    requires j <= |events|
    ensures DataAfter(events + [e], j) ==
      if j == |events| then FieldsOf(OwnData(e))
      else if OwnerAfter(events) == MapOf(j) && e.Called? then DataAfter(events, j) + FieldsOf(OwnData(e))
      else DataAfter(events, j)
  {
    assert (events + [e])[..|events|] == events;
  }

  lemma OwnerAfterSnoc(events: seq<Event>, e: Event)
    ensures OwnerAfter(events + [e]) ==
      var before := OwnerAfter(events);
      if e.LeftOut? || !e.msg.Reply? || !before.NoMap? then before
      else if e.msg.resp.data.Some? then MapOf(|events|)
      else if before.merged == 0 then NoMap(1)
      else OwnMap
  {
    assert (events + [e])[..|events|] == events;
  }

  /** Once some response's map is the accumulator's, it stays so. */
  lemma {:induction false} OwnerStays(events: seq<Event>, j: nat, n: nat)
    requires j < n <= |events|
    ensures OwnerAfter(events[..n]) == MapOf(j) <==> OwnerAfter(events[..j + 1]) == MapOf(j)
    ensures OwnerAfter(events[..n]).MapOf? ==> OwnerAfter(events[..n]).j < n
    decreases n
  {
    assert events[..n][..n - 1] == events[..n - 1];
    OwnerIndex(events[..n - 1]);
    if n > j + 1 {
      OwnerStays(events, j, n - 1);
    }
  }

  lemma {:induction false} OwnerIndex(events: seq<Event>)
    ensures OwnerAfter(events).MapOf? ==> OwnerAfter(events).j < |events|
    decreases |events|
  {
    if events != [] {
      OwnerIndex(events[..|events| - 1]);
    }
  }

  /** Backend j's response is the one whose map the combiner writes into: the first with data, unless
      two without data came before. */
  predicate Written(events: seq<Event>, j: nat)
    requires j < |events|
  {
    OwnerAfter(events[..j + 1]) == MapOf(j)
  }

  predicate Brings(e: Event, key: string) {
    e.Called? && key in FieldsOf(OwnData(e))
  }

  /** No response merged after backend j has the key. */
  ghost predicate NoLater(events: seq<Event>, j: nat, key: string) {
    forall k :: j < k < |events| ==> !Brings(events[k], key)
  }

  /** The last response merged after backend j that has the key. */
  function LastWriter(events: seq<Event>, j: nat, key: string): (w: Option<nat>)
    ensures w.Some? ==> j < w.value < |events| && Brings(events[w.value], key)
    decreases |events|
  {
    var n := |events| - 1;
    if n <= j then None
    else if Brings(events[n], key) then Some(n)
    else LastWriter(events[..n], j, key)
  }

  lemma {:induction false} NoLaterIff(events: seq<Event>, j: nat, key: string)
    ensures LastWriter(events, j, key).None? <==> NoLater(events, j, key)
    decreases |events|
  {
    var n := |events| - 1;
    if n > j {
      assert forall k :: 0 <= k < n ==> events[..n][k] == events[k];
      NoLaterIff(events[..n], j, key);
    }
  }

  /** What that response has for it. */
  function LaterField(events: seq<Event>, j: nat, key: string): Option<Json> {
    var w := LastWriter(events, j, key);
    if w.Some? then Field(FieldsOf(OwnData(events[w.value])), key) else None
  }

  /** What the key has in the map of backend j after the events, from what the backends delivered: its
      own value, or for the map that is written, the value of the last response that brings the key. */
  function FieldAfter(events: seq<Event>, j: nat, key: string): Option<Json>
    requires j < |events|
  {
    if Written(events, j) && LastWriter(events, j, key).Some? then LaterField(events, j, key)
    else Field(FieldsOf(OwnData(events[j])), key)
  }

  /** Key by key, what the maps hold: exactly that. */
  lemma {:induction false} DataAfterKey(events: seq<Event>, j: nat, key: string)
    requires j < |events|
    ensures Field(DataAfter(events, j), key) == FieldAfter(events, j, key)
    decreases |events|
  {
    var n := |events| - 1;
    if n > j {
      assert events[..n][..j + 1] == events[..j + 1];
      assert forall k :: 0 <= k < n ==> events[..n][k] == events[k];
      OwnerStays(events, j, n);
      DataAfterKey(events[..n], j, key);
    }
  }

  /** A map that the combiner does not write is what its backend delivered. */
  lemma {:induction false} UnwrittenStays(events: seq<Event>, j: nat)
    requires j < |events| && !Written(events, j)
    ensures DataAfter(events, j) == FieldsOf(OwnData(events[j]))
  {
    forall key
      ensures Field(DataAfter(events, j), key) == Field(FieldsOf(OwnData(events[j])), key)
    {
      DataAfterKey(events, j, key);
    }
    SameFields(DataAfter(events, j), FieldsOf(OwnData(events[j])));
  }

  lemma SameFields(a: Fields, b: Fields)
    requires forall key :: Field(a, key) == Field(b, key)
    ensures a == b
  {
    forall key
      ensures key in a <==> key in b
      ensures key in a ==> a[key] == b[key]
    {
      assert Field(a, key) == Field(b, key);
    }
  }

  /** Nothing that comes later can change the key in backend j's map. */
  ghost predicate Shielded(events: seq<Event>, j: nat, key: string)
    requires j < |events|
  {
    Written(events, j) ==> NoLater(events, j, key)
  }

  /** Exactly when a key keeps the value backend j delivered: if it is shielded, or the last response
      that brings it brings the same. */
  lemma {:induction false} KeyKeepsOwnValueIff(events: seq<Event>, j: nat, key: string)
    requires j < |events|
    ensures var own := Field(FieldsOf(OwnData(events[j])), key);
      Field(DataAfter(events, j), key) == own <==>
        Shielded(events, j, key) || LaterField(events, j, key) == own
  {
    NoLaterIff(events, j, key);
    DataAfterKey(events, j, key);
  }

  /** What the lookup for backend j finds, from what the backends delivered. */
  lemma LookupAfter(events: seq<Event>, j: nat, source: Path)
    requires j < |events| && source != []
    ensures Lookup(DataAfter(events, j), source) ==
      LookupFrom(FieldAfter(events, j, source[0]), FieldAfter(events, j, source[|source| - 1]), source)
  {
    LookupIsFrom(DataAfter(events, j), source);
    DataAfterKey(events, j, source[0]);
    DataAfterKey(events, j, source[|source| - 1]);
  }

  /** Exactly when the lookup finds the value backend j delivered, of a path that exists there: if the
      path's top-level key is shielded; otherwise the last response that brings that key takes its
      place, and the lookup has to find the same from there. */
  lemma {:induction false} LookupFindsOwnValueIff(events: seq<Event>, j: nat, source: Path)
    requires j < |events| && source != []
    requires Get(Obj(FieldsOf(OwnData(events[j]))), source).Some?
    ensures var own := Get(Obj(FieldsOf(OwnData(events[j]))), source);
      Lookup(DataAfter(events, j), source) == own <==>
        || Shielded(events, j, source[0])
        || LookupFrom(LaterField(events, j, source[0]), FieldAfter(events, j, source[|source| - 1]), source) == own
  {
    var own := FieldsOf(OwnData(events[j]));
    LookupAfter(events, j, source);
    NoLaterIff(events, j, source[0]);
    LookupOfWholePath(own, source);
    LookupIsFrom(own, source);
    if Shielded(events, j, source[0]) {
      ShieldedLookup(events, j, source);
    }
  }

  lemma ShieldedLookup(events: seq<Event>, j: nat, source: Path)
    requires j < |events| && source != [] && Shielded(events, j, source[0])
    requires Get(Obj(FieldsOf(OwnData(events[j]))), source).Some?
    ensures Lookup(DataAfter(events, j), source) == Get(Obj(FieldsOf(OwnData(events[j]))), source)
  {
    var own, now := FieldsOf(OwnData(events[j])), DataAfter(events, j);
    KeyKeepsOwnValueIff(events, j, source[0]);
    assert source[0] in own && Field(now, source[0]) == Field(own, source[0]);
    assert Get(Obj(now), source) == Get(Obj(own), source);
    LookupOfWholePath(now, source);
  }

  /** It does happen that a later response takes the place: the lookup for backend 0 then finds the data
      of backend 1. */
  lemma LaterKeyWins(params: Params) returns (events: seq<Event>)
    ensures |events| == 2 && forall k :: 0 <= k < 2 ==> GoesOn(events[k]) && events[k].Called?
    ensures OwnData(events[0]) == Some(map["id" := Atom(Text("zero"))])
    ensures Lookup(DataAfter(events, 0), ["id"]) == Some(Atom(Text("one")))
  {
    var d0: Fields, d1: Fields := map["id" := Atom(Text("zero"))], map["id" := Atom(Text("one"))];
    var e0 := Called(params, map[], Reply(Resp(Some(d0), true)));
    var e1 := Called(params, map[], Reply(Resp(Some(d1), true)));
    events := [e0, e1];
    assert events[..1] == [e0] && [e0][..0] == [];
    assert OwnerAfter([]) == NoMap(0);
    assert Written(events, 0);
    LookupAfter(events, 0, ["id"]);
  }

  lemma {:induction false} GoodMessages(ms: seq<Msg>)
    ensures Errors(ms) == [] && AllGood(Replies(ms)) <==>
      forall m :: m in ms ==> GoodMessage(m, |ms| >= 2)
  {
    MessagesVerdict(ms);
    if forall k :: 0 <= k < |ms| ==> GoodMessage(ms[k], |ms| >= 2) {
      assert forall m :: m in ms ==> GoodMessage(m, |ms| >= 2);
    }
    if forall m :: m in ms ==> GoodMessage(m, |ms| >= 2) {
      assert forall k :: 0 <= k < |ms| ==> ms[k] in ms;
    }
  }
}
