/** Merging backend responses (proxy/merging.go): the default combiner and the incremental
    accumulator, on mutable responses and maps, with what any sequence of merges amounts to. */
module Merging {
  import opened Options
  import opened JsonTree
  import opened Permutations

  // ---------------------------------------------------------------- values

  type Fields = map<string, Json>

  datatype Error = ErrNullResult | ContextDone | BackendError(id: int)

  /** A response as a value: its data, which may be Go's nil, and its flag. */
  datatype Resp = Resp(data: Option<Fields>, complete: bool)

  /** The arguments of one `Merge` call. */
  datatype Msg = Failure(err: Error) | Reply(resp: Resp) | NilReply

  datatype Acc = Acc(pending: int, data: Option<Resp>, errs: seq<Error>)

  function Start(total: int): Acc {
    Acc(total, None, [])
  }

  /** The default combiner on two responses. */
  function Combine(a: Resp, b: Resp): Resp {
    var complete := a.data.Some? && b.data.Some? && a.complete && b.complete;
    if a.data.None? && b.data.None? then Resp(Some(map[]), complete)
    else if a.data.None? then Resp(b.data, complete)
    else if b.data.None? then Resp(a.data, complete)
    else Resp(Some(a.data.value + b.data.value), complete)
  }

  function MergeOne(acc: Acc, msg: Msg): Acc {
    match msg
    case Failure(err) =>
      Acc(acc.pending - 1, if acc.data.Some? then Some(acc.data.value.(complete := false)) else None, acc.errs + [err])
    case NilReply => Acc(acc.pending - 1, acc.data, acc.errs + [ErrNullResult])
    case Reply(resp) =>
      Acc(acc.pending - 1, if acc.data.Some? then Some(Combine(acc.data.value, resp)) else Some(resp), acc.errs)
  }

  function MergeAll(acc: Acc, msgs: seq<Msg>): Acc
    decreases |msgs|
  {
    if msgs == [] then acc else MergeOne(MergeAll(acc, msgs[..|msgs| - 1]), msgs[|msgs| - 1])
  }

  /** What `Result` answers: the response, flagged incomplete if something is missing or failed, and
      the errors (Go's nil error if there are none). */
  function ResultOf(acc: Acc): Option<Resp> {
    if acc.data.Some? && (acc.pending > 0 || |acc.errs| > 0) then Some(acc.data.value.(complete := false)) else acc.data
  }

  // ---------------------------------------------------------------- the objects

  class DataMap {
    var m: Fields

    constructor (m: Fields)
      ensures this.m == m
    {
      this.m := m;
    }
  }

  /** A response body that can be read once. */
  class Reader {
    var rest: string
    const fails: bool

    constructor (rest: string, fails: bool)
      ensures this.rest == rest && this.fails == fails
    {
      this.rest := rest;
      this.fails := fails;
    }

    /** Go's `io.ReadAll`. */
    method ReadAll() returns (buf: string, err: bool)
      modifies this
      ensures buf == old(rest) && err == fails && rest == ""
    {
      buf, err := rest, fails;
      rest := "";
    }
  }

  /** Only the flag of a response is ever assigned to once it exists; its map is written through. */
  class Response {
    const Data: DataMap?
    var IsComplete: bool
    const Io: Reader?

    constructor (data: DataMap?, complete: bool)
      ensures Data == data && IsComplete == complete && Io == null
    {
      Data := data;
      IsComplete := complete;
      Io := null;
    }

    ghost function Value(): Resp
      reads this, Data
    {
      Resp(if Data == null then None else Some(Data.m), IsComplete)
    }
  }

  /** Go's loop `for k, v := range src { dst[k] = v }`. */
  method CopyInto(dst: DataMap, src: DataMap)
    modifies dst
    ensures dst.m == old(dst.m) + old(src.m)
  {
    ghost var from, into := src.m, dst.m;
    var remaining := src.m.Keys;
    while remaining != {}
      invariant remaining <= from.Keys
      invariant dst == src ==> dst.m == from
      invariant src.m == from
      invariant dst.m.Keys == into.Keys + (from.Keys - remaining)
      invariant forall k :: k in dst.m ==>
        dst.m[k] == if k in from && (k !in remaining || dst == src) then from[k] else into[k]
      decreases remaining
    {
      var k :| k in remaining;
      dst.m := dst.m[k := src.m[k]];
      remaining := remaining - {k};
    }
  }

  /** `combineData` on two parts: a new response over the first non-nil data map, which is written. */
  method CombineData(first: Response, second: Response) returns (r: Response)
    modifies first.Data
    ensures fresh(r) && r.Value() == Combine(old(first.Value()), old(second.Value())) && r.Io == null
    ensures if first.Data != null then r.Data == first.Data
            else if second.Data != null then r.Data == second.Data else fresh(r.Data)
    ensures first.Data != null ==>
      first.Data.m == old(first.Data.m) + (if second.Data != null then old(second.Data.m) else map[])
  {
    var parts := [first, second];
    var isComplete := true;
    var retData: DataMap? := null;
    for i := 0 to 2
      invariant i == 0 ==> isComplete && retData == null
      invariant i == 1 ==> isComplete == (first.Data != null && first.IsComplete) && retData == first.Data
      invariant i == 2 ==> isComplete == Combine(old(first.Value()), old(second.Value())).complete
      invariant i == 2 ==> retData == if first.Data != null then first.Data else second.Data
      invariant first.Data != null ==>
        first.Data.m == (if i == 2 && second.Data != null then old(first.Data.m) + old(second.Data.m)
          else old(first.Data.m))
    {
      var part := parts[i];
      if part.Data == null {
        isComplete := false;
      } else {
        isComplete := isComplete && part.IsComplete;
        if retData == null {
          retData := part.Data;
        } else {
          CopyInto(retData, part.Data);
        }
      }
    }
    if retData == null {
      // no nil data in a combined response
      retData := new DataMap(map[]);
    }
    r := new Response(retData, isComplete);
  }

  class IncrementalMergeAccumulator {
    var pending: int
    var data: Response?
    var errs: seq<Error>

    constructor (total: int)
      ensures Value() == Start(total) && data == null
    {
      pending, data, errs := total, null, [];
    }

    ghost function Value(): Acc
      reads this, data, if data == null then null else data.Data
    {
      Acc(pending, if data == null then None else Some(data.Value()), errs)
    }

    /** `Merge(res, err)`; a response is only looked at if there is no error. The first response is
        kept as it is; later ones are combined into a new response over the first data map. */
    method Merge(res: Response?, err: Option<Error>)
      modifies this, (if data == null then {} else {data})`IsComplete, if data == null then null else data.Data
      ensures Value() == MergeOne(old(Value()),
        if err.Some? then Failure(err.value) else if res == null then NilReply else Reply(old(res.Value())))
      ensures err.Some? || res == null ==> data == old(data)
      ensures err.None? && res != null ==>
        && data != null && (if old(data) == null then data == res else fresh(data))
        && (if old(data) != null && old(data).Data != null then data.Data == old(data).Data
            else if res.Data != null then data.Data == res.Data
            else old(data) == null || fresh(data.Data))
      ensures err.None? && res != null && old(data) != null && old(data).Data != null ==>
        data.Data.m == old(data.Data.m) + if res.Data != null then old(res.Data.m) else map[]
      ensures err.None? && res != null && old(data) != null && old(data).Data == res.Data == null ==>
        data.Data.m == map[]
      ensures err.None? && res != null ==> res.IsComplete == old(res.IsComplete)
      ensures err.None? && old(data) != null ==> old(data).IsComplete == old(data.IsComplete)
    {
      pending := pending - 1;
      if err.Some? {
        errs := errs + [err.value];
        if data != null {
          data.IsComplete := false;
        }
        return;
      }
      if res == null {
        errs := errs + [ErrNullResult];
        return;
      }
      if data == null {
        data := res;
        return;
      }
      data := CombineData(data, res);
    }

    method Result() returns (r: Response?, e: seq<Error>)
      modifies (if data == null then {} else {data})`IsComplete
      ensures r == data == old(data) && e == errs && pending == old(pending) && errs == old(errs)
      ensures (if r == null then None else Some(r.Value())) == ResultOf(old(Value()))
    {
      if data == null {
        return null, errs;
      }
      if pending > 0 || |errs| > 0 {
        data.IsComplete := false;
      }
      return data, errs;
    }
  }

  // ---------------------------------------------------------------- any sequence of merges

  function ReplyOf(msg: Msg): seq<Resp> {
    if msg.Reply? then [msg.resp] else []
  }

  function ErrorOf(msg: Msg): seq<Error> {
    match msg case Failure(e) => [e] case NilReply => [ErrNullResult] case Reply(_) => []
  }

  function Replies(msgs: seq<Msg>): seq<Resp>
    decreases |msgs|
  {
    if msgs == [] then [] else Replies(msgs[..|msgs| - 1]) + ReplyOf(msgs[|msgs| - 1])
  }

  function Errors(msgs: seq<Msg>): seq<Error>
    decreases |msgs|
  {
    if msgs == [] then [] else Errors(msgs[..|msgs| - 1]) + ErrorOf(msgs[|msgs| - 1])
  }

  /** All replies are complete, and none lacks data if there are two or more. */
  ghost predicate AllGood(rs: seq<Resp>) {
    && (forall i :: 0 <= i < |rs| ==> rs[i].complete)
    && (|rs| >= 2 ==> forall i :: 0 <= i < |rs| ==> rs[i].data.Some?)
  }

  /** The union of the data maps, later ones winning. */
  function UnionOf(rs: seq<Resp>): Fields
    decreases |rs|
  {
    if rs == [] then map[]
    else
      var last := rs[|rs| - 1];
      UnionOf(rs[..|rs| - 1]) + if last.data.Some? then last.data.value else map[]
  }

  /** What merging amounts to, before the final verdict: `rs` are the replies, `es` the errors. */
  ghost predicate Summary(acc: Acc, rs: seq<Resp>, es: seq<Error>) {
    && acc.errs == es
    && (acc.data.None? <==> rs == [])
    && (|rs| == 1 ==> acc.data.value.data == rs[0].data)
    && (|rs| >= 2 ==> acc.data.value.data == Some(UnionOf(rs)))
    && (rs != [] && es == [] ==> (acc.data.value.complete <==> AllGood(rs)))
  }

  lemma ReplyKeepsSummary(acc: Acc, rs: seq<Resp>, es: seq<Error>, r: Resp)
    requires Summary(acc, rs, es)
    ensures Summary(MergeOne(acc, Reply(r)), rs + [r], es)
  {
    UnionSnoc(rs, r);
    if |rs| == 1 {
      UnionOfOne(rs);
    }
    if rs != [] {
      AllGoodSnoc(rs, r);
      EmptyUnion(UnionOf(rs));
      if r.data.Some? {
        EmptyUnion(r.data.value);
      }
    }
  }

  lemma {:induction false} MergeAllSummary(total: int, msgs: seq<Msg>)
    ensures Summary(MergeAll(Start(total), msgs), Replies(msgs), Errors(msgs))
    ensures MergeAll(Start(total), msgs).pending == total - |msgs|
    ensures |Replies(msgs)| + |Errors(msgs)| == |msgs|
    decreases |msgs|
  {
    if msgs != [] {
      var before, last := msgs[..|msgs| - 1], msgs[|msgs| - 1];
      MergeAllSummary(total, before);
      if last.Reply? {
        ReplyKeepsSummary(MergeAll(Start(total), before), Replies(before), Errors(before), last.resp);
        assert Errors(before) + [] == Errors(before);
      } else {
        assert Replies(before) + [] == Replies(before);
      }
    }
  }

  lemma UnionSnoc(rs: seq<Resp>, r: Resp)
    ensures UnionOf(rs + [r]) == UnionOf(rs) + if r.data.Some? then r.data.value else map[]
  {
    assert (rs + [r])[..|rs|] == rs;
  }

  lemma UnionOfOne(rs: seq<Resp>)
    requires |rs| == 1
    ensures UnionOf(rs) == if rs[0].data.Some? then rs[0].data.value else map[]
  {
    assert rs[..0] == [];
    EmptyUnion(if rs[0].data.Some? then rs[0].data.value else map[]);
  }

  lemma EmptyUnion(m: Fields)
    ensures m + map[] == m && map[] + m == m
  {
  }

  lemma AllGoodSnoc(rs: seq<Resp>, r: Resp)
    requires rs != []
    ensures AllGood(rs + [r]) <==> AllGood(rs) && r.complete && r.data.Some? && (|rs| == 1 ==> rs[0].data.Some?)
  {
    var s := rs + [r];
    if AllGood(s) {
      assert forall i :: 0 <= i < |rs| ==> rs[i] == s[i];
      assert s[|rs|] == r && s[0] == rs[0];
    }
  }

  /** The verdict. Errors and responses account for every call; the result is there exactly if some
      response was; and it is complete exactly if nothing is pending, nothing failed, all responses
      were complete, and all carried data if there were two or more. */
  lemma ResultSummary(total: int, msgs: seq<Msg>)
    ensures var acc := MergeAll(Start(total), msgs);
      var r := ResultOf(acc);
      var rs := Replies(msgs);
      && |acc.errs| + |rs| == total - acc.pending && acc.errs == Errors(msgs)
      && (r.None? <==> rs == [])
      && (rs != [] ==> (r.value.complete <==> |msgs| >= total && Errors(msgs) == [] && AllGood(rs)))
      && (|rs| == 1 ==> r.value.data == rs[0].data)
      && (|rs| >= 2 ==> r.value.data == Some(UnionOf(rs)))
  {
    MergeAllSummary(total, msgs);
  }

  // ---------------------------------------------------------------- arrival order

  lemma WithoutSnoc<T>(s: seq<T>, i: nat)
    requires i < |s| - 1
    ensures Without(s, i) == Without(s[..|s| - 1], i) + [s[|s| - 1]]
  {
  }

  lemma CollectSnoc(msgs: seq<Msg>, last: Msg)
    ensures Replies(msgs + [last]) == Replies(msgs) + ReplyOf(last)
    ensures Errors(msgs + [last]) == Errors(msgs) + ErrorOf(last)
  {
    assert (msgs + [last])[..|msgs|] == msgs;
  }

  lemma {:induction false} CollectWithout(msgs: seq<Msg>, i: nat)
    requires i < |msgs|
    ensures multiset(Replies(msgs)) == multiset(Replies(Without(msgs, i))) + multiset(ReplyOf(msgs[i]))
    ensures multiset(Errors(msgs)) == multiset(Errors(Without(msgs, i))) + multiset(ErrorOf(msgs[i]))
    decreases |msgs|
  {
    var before, last := msgs[..|msgs| - 1], msgs[|msgs| - 1];
    assert msgs == before + [last];
    CollectSnoc(before, last);
    if i == |msgs| - 1 {
      assert Without(msgs, i) == before;
    } else {
      CollectWithout(before, i);
      WithoutSnoc(msgs, i);
      CollectSnoc(Without(before, i), last);
      assert before[i] == msgs[i];
      SumsMove(Replies(before), Replies(Without(before, i)), ReplyOf(msgs[i]), ReplyOf(last));
      SumsMove(Errors(before), Errors(Without(before, i)), ErrorOf(msgs[i]), ErrorOf(last));
    }
  }

  lemma SumsMove<T>(all: seq<T>, rest: seq<T>, one: seq<T>, last: seq<T>)
    requires multiset(all) == multiset(rest) + multiset(one)
    ensures multiset(all + last) == multiset(rest + last) + multiset(one)
  {
  }

  /** Replies and errors are the same multisets in every arrival order. */
  lemma {:induction false} CollectPermuted(msgs: seq<Msg>, msgs': seq<Msg>)
    requires multiset(msgs) == multiset(msgs')
    ensures multiset(Replies(msgs)) == multiset(Replies(msgs'))
    ensures multiset(Errors(msgs)) == multiset(Errors(msgs'))
    decreases |msgs|
  {
    assert |multiset(msgs)| == |msgs| && |multiset(msgs')| == |msgs'|;
    if msgs != [] {
      var i := TakeFirstOut(msgs, msgs');
      WithoutFirst(msgs);
      CollectPermuted(msgs[1..], Without(msgs', i));
      CollectWithout(msgs, 0);
      CollectWithout(msgs', i);
    }
  }

  lemma AllGoodPermuted(rs: seq<Resp>, rs': seq<Resp>)
    requires multiset(rs) == multiset(rs')
    ensures AllGood(rs) ==> AllGood(rs')
  {
    assert |multiset(rs)| == |rs| && |multiset(rs')| == |rs'|;
    forall i | AllGood(rs) && 0 <= i < |rs'|
      ensures rs'[i].complete && (|rs'| >= 2 ==> rs'[i].data.Some?)
    {
      assert rs'[i] in multiset(rs);
    }
  }

  predicate AgreeOn(a: Fields, b: Fields) {
    forall k :: k in a && k in b ==> a[k] == b[k]
  }

  /** Responses that share a top-level key have the same value for it. */
  ghost predicate SharedKeysAgree(rs: seq<Resp>) {
    forall i, j :: 0 <= i < |rs| && 0 <= j < |rs| && rs[i].data.Some? && rs[j].data.Some? ==>
      AgreeOn(rs[i].data.value, rs[j].data.value)
  }

  /** Response i is the last of the list to have the key. */
  ghost predicate LastWith(rs: seq<Resp>, k: string, i: nat) {
    && i < |rs| && rs[i].data.Some? && k in rs[i].data.value
    && forall j :: i < j < |rs| && rs[j].data.Some? ==> k !in rs[j].data.value
  }

  /** In the union every key has the value of the last response that has it. */
  lemma {:induction false} UnionIsLast(rs: seq<Resp>, k: string)
    ensures k in UnionOf(rs) <==> exists i: nat :: LastWith(rs, k, i)
    ensures forall i: nat :: LastWith(rs, k, i) ==> k in UnionOf(rs) && UnionOf(rs)[k] == rs[i].data.value[k]
    decreases |rs|
  {
    if rs != [] {
      var n := |rs| - 1;
      var before, last := rs[..n], rs[n];
      UnionIsLast(before, k);
      if last.data.Some? && k in last.data.value {
        assert LastWith(rs, k, n);
      } else {
        forall i: nat
          ensures LastWith(rs, k, i) <==> LastWith(before, k, i)
        {
          if i < n {
            assert rs[i] == before[i];
            assert forall j :: i < j < n ==> rs[j] == before[j];
          }
        }
      }
    }
  }

  lemma {:induction false} SomeLast(rs: seq<Resp>, k: string, i: nat) returns (j: nat)
    requires i < |rs| && rs[i].data.Some? && k in rs[i].data.value
    ensures i <= j && LastWith(rs, k, j)
    decreases |rs| - i
  {
    if j' :| i < j' < |rs| && rs[j'].data.Some? && k in rs[j'].data.value {
      j := SomeLast(rs, k, j');
    } else {
      j := i;
    }
  }

  lemma UnionPermuted(rs: seq<Resp>, rs': seq<Resp>)
    requires multiset(rs) == multiset(rs') && SharedKeysAgree(rs) && SharedKeysAgree(rs')
    ensures UnionOf(rs) == UnionOf(rs')
  {
    forall k
      ensures k in UnionOf(rs) ==> k in UnionOf(rs') && UnionOf(rs)[k] == UnionOf(rs')[k]
      ensures k in UnionOf(rs') ==> k in UnionOf(rs)
    {
      UnionMoves(rs, rs', k);
      UnionMoves(rs', rs, k);
    }
  }

  lemma UnionMoves(rs: seq<Resp>, rs': seq<Resp>, k: string)
    requires multiset(rs) == multiset(rs') && SharedKeysAgree(rs')
    ensures k in UnionOf(rs) ==> k in UnionOf(rs') && UnionOf(rs)[k] == UnionOf(rs')[k]
  {
    UnionIsLast(rs, k);
    UnionIsLast(rs', k);
    if k in UnionOf(rs) {
      var i: nat :| LastWith(rs, k, i);
      assert rs[i] in multiset(rs');
      var i' :| 0 <= i' < |rs'| && rs'[i'] == rs[i];
      var j' := SomeLast(rs', k, i');
      assert AgreeOn(rs'[i'].data.value, rs'[j'].data.value);
    }
  }

  lemma AgreementPermuted(rs: seq<Resp>, rs': seq<Resp>)
    requires multiset(rs) == multiset(rs') && SharedKeysAgree(rs)
    ensures SharedKeysAgree(rs')
  {
    forall i, j | 0 <= i < |rs'| && 0 <= j < |rs'| && rs'[i].data.Some? && rs'[j].data.Some?
      ensures AgreeOn(rs'[i].data.value, rs'[j].data.value)
    {
      assert rs'[i] in multiset(rs) && rs'[j] in multiset(rs);
      var p, q :| 0 <= p < |rs| && 0 <= q < |rs| && rs[p] == rs'[i] && rs[q] == rs'[j];
    }
  }

  lemma SameSizes(msgs: seq<Msg>, msgs': seq<Msg>)
    requires multiset(msgs) == multiset(msgs') && multiset(Errors(msgs)) == multiset(Errors(msgs'))
    ensures |msgs| == |msgs'| && |Errors(msgs)| == |Errors(msgs')|
  {
    assert |multiset(msgs)| == |multiset(msgs')| && |multiset(Errors(msgs))| == |multiset(Errors(msgs'))|;
  }

  lemma SameReplies(rs: seq<Resp>, rs': seq<Resp>)
    requires multiset(rs) == multiset(rs')
    ensures |rs| == |rs'| && (AllGood(rs) <==> AllGood(rs')) && (|rs| == 1 ==> rs == rs')
    ensures SharedKeysAgree(rs) ==> UnionOf(rs) == UnionOf(rs')
  {
    assert |multiset(rs)| == |multiset(rs')|;
    AllGoodPermuted(rs, rs');
    AllGoodPermuted(rs', rs);
    if |rs| == 1 {
      assert rs[0] in multiset(rs');
    }
    if SharedKeysAgree(rs) {
      AgreementPermuted(rs, rs');
      UnionPermuted(rs, rs');
    }
  }

  /** The arrival order does not matter: presence, flag and the multiset of errors are the same, and
      if responses agree on the top-level keys that they share, so is the data. */
  lemma {:induction false} ArrivalOrderIrrelevant(total: int, msgs: seq<Msg>, msgs': seq<Msg>)
    requires multiset(msgs) == multiset(msgs')
    ensures var r, r' := ResultOf(MergeAll(Start(total), msgs)), ResultOf(MergeAll(Start(total), msgs'));
      && (r.None? <==> r'.None?)
      && (r.Some? ==> r.value.complete == r'.value.complete && (r.value.data.None? <==> r'.value.data.None?))
      && multiset(MergeAll(Start(total), msgs).errs) == multiset(MergeAll(Start(total), msgs').errs)
      && (SharedKeysAgree(Replies(msgs)) ==> r == r')
  {
    ResultSummary(total, msgs);
    ResultSummary(total, msgs');
    CollectPermuted(msgs, msgs');
    SameSizes(msgs, msgs');
    SameReplies(Replies(msgs), Replies(msgs'));
  }

  /** Message i, moved to the end. */
  function MovedLast(msgs: seq<Msg>, i: nat): (msgs': seq<Msg>)
    requires i < |msgs|
    ensures multiset(msgs') == multiset(msgs)
  {
    WithoutMultiset(msgs, i);
    Without(msgs, i) + [msgs[i]]
  }

  lemma {:induction false} MessageOfReply(msgs: seq<Msg>, i: nat) returns (p: nat)
    requires i < |Replies(msgs)|
    ensures p < |msgs| && msgs[p] == Reply(Replies(msgs)[i])
    decreases |msgs|
  {
    var n := |msgs| - 1;
    assert msgs == msgs[..n] + [msgs[n]];
    CollectSnoc(msgs[..n], msgs[n]);
    if i < |Replies(msgs[..n])| {
      p := MessageOfReply(msgs[..n], i);
    } else {
      p := n;
    }
  }

  /** A response that arrives last determines its keys. */
  lemma LastDecides(total: int, msgs: seq<Msg>, i: nat, k: string) returns (msgs': seq<Msg>)
    requires |Replies(msgs)| >= 2 && i < |Replies(msgs)| && Replies(msgs)[i].data.Some?
      && k in Replies(msgs)[i].data.value
    ensures multiset(msgs') == multiset(msgs)
    ensures var r := ResultOf(MergeAll(Start(total), msgs'));
      r.Some? && r.value.data.Some? && k in r.value.data.value
        && r.value.data.value[k] == Replies(msgs)[i].data.value[k]
  {
    var p := MessageOfReply(msgs, i);
    msgs' := MovedLast(msgs, p);
    CollectSnoc(Without(msgs, p), msgs[p]);
    CollectPermuted(msgs, msgs');
    assert |multiset(Replies(msgs))| == |multiset(Replies(msgs'))|;
    var n := |Replies(msgs')| - 1;
    assert Replies(msgs')[n] == Replies(msgs)[i] && LastWith(Replies(msgs'), k, n);
    LastArrivalWins(total, msgs', k, n);
  }

  /** Exactly when: the whole result is the same for every arrival order if and only if responses agree on
      the keys that they share. */
  lemma {:induction false} OrderIrrelevantIff(total: int, msgs: seq<Msg>)
    ensures (forall msgs' {:trigger multiset(msgs')} :: multiset(msgs') == multiset(msgs) ==>
               ResultOf(MergeAll(Start(total), msgs')) == ResultOf(MergeAll(Start(total), msgs))) <==>
      SharedKeysAgree(Replies(msgs))
  {
    var rs, r := Replies(msgs), ResultOf(MergeAll(Start(total), msgs));
    if SharedKeysAgree(rs) {
      forall msgs' | multiset(msgs') == multiset(msgs)
        ensures ResultOf(MergeAll(Start(total), msgs')) == r
      {
        ArrivalOrderIrrelevant(total, msgs, msgs');
      }
    } else {
      var i, j :| 0 <= i < |rs| && 0 <= j < |rs| && rs[i].data.Some? && rs[j].data.Some?
        && !AgreeOn(rs[i].data.value, rs[j].data.value);
      var k :| k in rs[i].data.value && k in rs[j].data.value && rs[i].data.value[k] != rs[j].data.value[k];
      var last := LastDecides(total, msgs, i, k);
      var last' := LastDecides(total, msgs, j, k);
    }
  }

  /** Whatever the responses, each key of a merged result still has its last arrival's value. */
  lemma LastArrivalWins(total: int, msgs: seq<Msg>, k: string, i: nat)
    requires |Replies(msgs)| >= 2 && LastWith(Replies(msgs), k, i)
    ensures var r := ResultOf(MergeAll(Start(total), msgs));
      r.Some? && r.value.data.Some? && k in r.value.data.value &&
      r.value.data.value[k] == Replies(msgs)[i].data.value[k]
  {
    ResultSummary(total, msgs);
    UnionIsLast(Replies(msgs), k);
  }

  /** Nothing delivered is lost: every key of every response that carried data is in a merged result,
      with the value of some response that no later one with the key follows. */
  lemma EveryKeyHasLastArrival(total: int, msgs: seq<Msg>, k: string, i: nat) returns (j: nat)
    requires |Replies(msgs)| >= 2 && i < |Replies(msgs)| && Replies(msgs)[i].data.Some?
      && k in Replies(msgs)[i].data.value
    ensures i <= j < |Replies(msgs)| && LastWith(Replies(msgs), k, j)
    ensures var r := ResultOf(MergeAll(Start(total), msgs));
      r.Some? && r.value.data.Some? && k in r.value.data.value &&
      r.value.data.value[k] == Replies(msgs)[j].data.value[k]
  {
    j := SomeLast(Replies(msgs), k, i);
    LastArrivalWins(total, msgs, k, j);
  }

  // ---------------------------------------------------------------- message by message

  predicate GoodMessage(m: Msg, several: bool) {
    m.Reply? && m.resp.complete && (several ==> m.resp.data.Some?)
  }

  lemma {:induction false} RepliesOnly(ms: seq<Msg>)
    requires forall k :: 0 <= k < |ms| ==> ms[k].Reply?
    ensures Errors(ms) == [] && |Replies(ms)| == |ms|
    ensures forall k :: 0 <= k < |ms| ==> Replies(ms)[k] == ms[k].resp
    decreases |ms|
  {
    if ms != [] {
      RepliesOnly(ms[..|ms| - 1]);
    }
  }

  lemma {:induction false} SomeError(ms: seq<Msg>, k: nat)
    requires k < |ms| && !ms[k].Reply?
    ensures Errors(ms) != []
    decreases |ms|
  {
    if k < |ms| - 1 {
      SomeError(ms[..|ms| - 1], k);
    }
  }

  /** The verdict on a list of messages, message by message. */
  lemma {:induction false} MessagesVerdict(ms: seq<Msg>)
    ensures Errors(ms) == [] && AllGood(Replies(ms)) <==>
      forall k :: 0 <= k < |ms| ==> GoodMessage(ms[k], |ms| >= 2)
  {
    if k :| 0 <= k < |ms| && !ms[k].Reply? {
      SomeError(ms, k);
    } else {
      RepliesOnly(ms);
    }
  }

  /** The message is that failure, or a nil response, which has an error of its own. */
  predicate MeansError(m: Msg, e: Error) {
    m == Failure(e) || (m == NilReply && e == ErrNullResult)
  }

  ghost predicate SomeMeansError(ms: seq<Msg>, e: Error) {
    exists t :: 0 <= t < |ms| && MeansError(ms[t], e)
  }

  lemma SomeErrorSnoc(ms: seq<Msg>, e: Error)
    requires ms != []
    ensures SomeMeansError(ms, e) <==> SomeMeansError(ms[..|ms| - 1], e) || MeansError(ms[|ms| - 1], e)
  {
    var before := ms[..|ms| - 1];
    if t :| 0 <= t < |before| && MeansError(before[t], e) {
      assert MeansError(ms[t], e);
    }
    if t :| 0 <= t < |ms| && MeansError(ms[t], e) {
      assert t < |before| ==> MeansError(before[t], e);
    }
  }

  lemma ErrorOfOne(m: Msg, e: Error)
    ensures e in ErrorOf(m) <==> MeansError(m, e)
  {
  }

  /** The errors are those of the failures, and one for every nil response. */
  lemma {:induction false} ErrorMembers(ms: seq<Msg>, e: Error)
    ensures e in Errors(ms) <==> SomeMeansError(ms, e)
    decreases |ms|
  {
    if ms != [] {
      ErrorMembers(ms[..|ms| - 1], e);
      SomeErrorSnoc(ms, e);
      ErrorOfOne(ms[|ms| - 1], e);
    }
  }

  lemma ErrorsAmong(ms: seq<Msg>, e: Error)
    ensures e in Errors(ms) <==> Failure(e) in ms || (NilReply in ms && e == ErrNullResult)
  {
    ErrorMembers(ms, e);
  }

  lemma ErrorsMerged(total: int, ms: seq<Msg>, e: Error)
    ensures e in MergeAll(Start(total), ms).errs <==> Failure(e) in ms || (NilReply in ms && e == ErrNullResult)
  {
    assert MergeAll(Start(total), ms).errs == Errors(ms) by {
      ResultSummary(total, ms);
    }
    ErrorsAmong(ms, e);
  }

  /** Message t brings the key, and no later one does. */
  ghost predicate BringsLast(ms: seq<Msg>, k: string, t: nat) {
    && t < |ms| && BringsKey(ms[t], k)
    && forall u :: t < u < |ms| ==> !BringsKey(ms[u], k)
  }

  predicate BringsKey(m: Msg, k: string) {
    m.Reply? && m.resp.data.Some? && k in m.resp.data.value
  }

  /** The union of the replies, message by message. */
  lemma {:induction false} UnionByMessage(ms: seq<Msg>, k: string)
    ensures k in UnionOf(Replies(ms)) <==> exists t: nat :: BringsLast(ms, k, t)
    ensures forall t: nat :: BringsLast(ms, k, t) ==>
      k in UnionOf(Replies(ms)) && UnionOf(Replies(ms))[k] == ms[t].resp.data.value[k]
    decreases |ms|
  {
    if ms != [] {
      var n := |ms| - 1;
      var before, last := ms[..n], ms[n];
      UnionByMessage(before, k);
      UnionOneMore(before, last);
      if BringsKey(last, k) {
        assert BringsLast(ms, k, n);
      } else {
        forall t: nat
          ensures BringsLast(ms, k, t) <==> BringsLast(before, k, t)
        {
          if t < n {
            assert ms[t] == before[t];
            assert forall u :: t < u < n ==> ms[u] == before[u];
          }
        }
      }
    }
  }

  lemma UnionOneMore(before: seq<Msg>, last: Msg)
    ensures UnionOf(Replies(before + [last])) ==
      UnionOf(Replies(before)) + if last.Reply? && last.resp.data.Some? then last.resp.data.value else map[]
  {
    CollectSnoc(before, last);
    var rs := Replies(before);
    if last.Reply? {
      UnionSnoc(rs, last.resp);
    } else {
      assert rs + [] == rs;
      EmptyUnion(UnionOf(rs));
    }
  }

  lemma {:induction false} SomeReply(ms: seq<Msg>)
    ensures Replies(ms) != [] <==> exists k :: 0 <= k < |ms| && ms[k].Reply?
    decreases |ms|
  {
    if ms != [] {
      var before := ms[..|ms| - 1];
      SomeReply(before);
      if k :| 0 <= k < |before| && before[k].Reply? {
        assert ms[k].Reply?;
      }
      if k :| 0 <= k < |ms| && ms[k].Reply? {
        assert k < |before| ==> before[k].Reply?;
      }
    }
  }
}
