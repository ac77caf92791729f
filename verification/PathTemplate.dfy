/** Filling a URL pattern from request parameters (proxy/request.go). A pattern is a list of
    tokens: literal text, placeholders `{name}` as configured, and holes `{{.Key}}` as filled. */
module PathTemplate {
  import opened Permutations

  /** Go's `bytes.ReplaceAll` and `strings.ReplaceAll` for a non-empty `old`: leftmost matches,
      without overlap; what was put in is not looked at again. */
  function ReplaceAll(s: string, old_: string, new_: string): string
    requires old_ != []
    decreases |s|
  {
    if s == [] then []
    else if old_ <= s then new_ + ReplaceAll(s[|old_|..], old_, new_)
    else [s[0]] + ReplaceAll(s[1..], old_, new_)
  }

  datatype Token = Lit(s: string) | Placeholder(name: string) | Hole(key: string)

  function Render(t: Token): string {
    match t
    case Lit(s) => s
    case Placeholder(name) => "{" + name + "}"
    case Hole(key) => "{{." + key + "}}"
  }

  function RenderAll(ts: seq<Token>): string
    decreases |ts|
  {
    if ts == [] then "" else Render(ts[0]) + RenderAll(ts[1..])
  }

  predicate BraceFree(s: string) {
    forall i :: 0 <= i < |s| ==> s[i] != '{' && s[i] != '}'
  }

  predicate WellFormed(t: Token) {
    match t
    case Lit(s) => BraceFree(s)
    case Placeholder(name) => BraceFree(name)
    case Hole(key) => BraceFree(key)
  }

  /** A placeholder whose name starts with a dot reads as part of the hole of the rest of its name. */
  predicate Clashes(t: Token, p: Token) {
    t.Hole? && p.Placeholder? && p.name == "." + t.key
  }

  ghost predicate NoClash(ts: seq<Token>, p: Token) {
    forall i :: 0 <= i < |ts| ==> !Clashes(ts[i], p)
  }

  predicate AllWellFormed(ts: seq<Token>) {
    forall i :: 0 <= i < |ts| ==> WellFormed(ts[i])
  }

  /** Every token `p` replaced by `q`. */
  function Substitute(ts: seq<Token>, p: Token, q: Token): (r: seq<Token>)
    ensures |r| == |ts| && forall i :: 0 <= i < |ts| ==> r[i] == if ts[i] == p then q else ts[i]
  {
    seq(|ts|, i requires 0 <= i < |ts| => if ts[i] == p then q else ts[i])
  }

  // ---------------------------------------------------------------- byte level and token level agree

  /** Where no match starts inside x, replacing passes over x. */
  lemma {:induction false} SkipsOver(x: string, rest: string, old_: string, new_: string)
    requires old_ != []
    requires forall i :: 0 <= i < |x| ==> !(old_ <= (x + rest)[i..])
    ensures ReplaceAll(x + rest, old_, new_) == x + ReplaceAll(rest, old_, new_)
    decreases |x|
  {
    if x == [] {
      assert x + rest == rest;
    } else {
      var s := x + rest;
      assert s[0..] == s && !(old_ <= s) && s[1..] == x[1..] + rest;
      forall i | 0 <= i < |x[1..]|
        ensures !(old_ <= (x[1..] + rest)[i..])
      {
        assert (x[1..] + rest)[i..] == s[i + 1..];
      }
      SkipsOver(x[1..], rest, old_, new_);
    }
  }

  lemma Mismatch(o: string, s: string, i: nat)
    requires i < |o| && i < |s| && o[i] != s[i]
    ensures !(o <= s)
  {
  }

  lemma CommonStart(x: string, a: string, b: string)
    ensures x + a <= x + b <==> a <= b
  {
    assert (x + a)[|x|..] == a && (x + b)[|x|..] == b;
    if a <= b {
      assert x + b == x + a + b[|a|..];
    }
  }

  /** Different brace-free names do not end at the same closing brace. */
  lemma DifferentNames(a: string, b: string, rest: string)
    requires BraceFree(a) && BraceFree(b) && a != b
    ensures !(a + "}" <= b + "}" + rest)
  {
    if |a| < |b| {
      Mismatch(a + "}", b + "}" + rest, |a|);
    } else if |b| < |a| {
      Mismatch(a + "}", b + "}" + rest, |b|);
    } else {
      var i :| 0 <= i < |a| && a[i] != b[i];
      Mismatch(a + "}", b + "}" + rest, i);
    }
  }

  /** A token is not matched at its own start unless it is the token looked for. */
  lemma NoMatchAtStart(t: Token, p: Token, rest: string)
    requires WellFormed(t) && WellFormed(p) && !p.Lit? && t != p
    requires Render(t) != ""
    ensures !(Render(p) <= Render(t) + rest)
  {
    var s, o := Render(t) + rest, Render(p);
    match (t, p) {
      case (Lit(x), _) =>
        Mismatch(o, s, 0);
      case (Hole(k), Hole(k')) =>
        DifferentNames(k', k, "}" + rest);
        assert s == "{{." + (k + "}" + ("}" + rest)) && o == "{{." + (k' + "}" + "}");
        assert k' + "}" <= k' + "}" + "}";
        CommonStart("{{.", k' + "}" + "}", k + "}" + ("}" + rest));
      case (Placeholder(n), Placeholder(n')) =>
        DifferentNames(n', n, rest);
        assert s == "{" + (n + "}" + rest) && o == "{" + (n' + "}");
        CommonStart("{", n' + "}", n + "}" + rest);
      case (Hole(k), Placeholder(n)) =>
        assert o[1] == (n + "}")[0];
        Mismatch(o, s, 1);
      case (Placeholder(n), Hole(k)) =>
        assert s[1] == (n + "}")[0];
        Mismatch(o, s, 1);
    }
  }

  /** Nor does a match start further inside a token, unless the two clash. */
  lemma NoMatchInside(t: Token, p: Token, rest: string, i: nat)
    requires WellFormed(t) && WellFormed(p) && !p.Lit? && !Clashes(t, p)
    requires 0 < i < |Render(t)|
    ensures !(Render(p) <= (Render(t) + rest)[i..])
  {
    var x, o := Render(t), Render(p);
    var s := (x + rest)[i..];
    assert s[0] == x[i] && o[0] == '{';
    if t.Hole? && i == 1 {
      if p.Hole? {
        assert s[1] == x[2] == '.';
        Mismatch(o, s, 1);
      } else {
        assert s == "{" + ("." + t.key + "}" + ("}" + rest)) && o == "{" + (p.name + "}");
        DifferentNames(p.name, "." + t.key, "}" + rest);
        CommonStart("{", p.name + "}", "." + t.key + "}" + ("}" + rest));
      }
    } else {
      assert t.Placeholder? ==> x[i] == (t.name + "}")[i - 1];
      assert t.Hole? ==> x[i] == ("." + t.key + "}}")[i - 2];
      Mismatch(o, s, 0);
    }
  }

  /** What becomes of the text of one token. */
  function Piece(t: Token, p: Token, q: Token): string {
    if t == p then Render(q) else if Clashes(t, p) then "{" + Render(q) + "}" else Render(t)
  }

  function Pieces(ts: seq<Token>, p: Token, q: Token): string
    decreases |ts|
  {
    if ts == [] then "" else Piece(ts[0], p, q) + Pieces(ts[1..], p, q)
  }

  lemma ReplaceOne(t: Token, p: Token, q: Token, rest: string)
    requires WellFormed(t) && WellFormed(p) && !p.Lit?
    ensures Render(p) != []
    ensures ReplaceAll(Render(t) + rest, Render(p), Render(q)) ==
      Piece(t, p, q) + ReplaceAll(rest, Render(p), Render(q))
  {
    var x, o := Render(t), Render(p);
    if t == p {
      assert (x + rest)[|x|..] == rest && x <= x + rest;
    } else if Clashes(t, p) {
      ReplaceInClash(t, p, q, rest);
    } else {
      forall i | 0 <= i < |x|
        ensures !(o <= (x + rest)[i..])
      {
        if i == 0 {
          NoMatchAtStart(t, p, rest);
          assert (x + rest)[0..] == x + rest;
        } else {
          NoMatchInside(t, p, rest, i);
        }
      }
      SkipsOver(x, rest, o, Render(q));
    }
  }

  lemma ReplaceSkips(c: char, s: string, o: string, v: string)
    requires o != [] && o[0] == '{' && !(o <= [c] + s)
    ensures ReplaceAll([c] + s, o, v) == [c] + ReplaceAll(s, o, v)
  {
    assert ([c] + s)[1..] == s;
  }

  lemma ReplaceHits(o: string, rest: string, v: string)
    requires o != []
    ensures ReplaceAll(o + rest, o, v) == v + ReplaceAll(rest, o, v)
  {
    assert o <= o + rest && (o + rest)[|o|..] == rest;
  }

  lemma ClashText(t: Token, p: Token, rest: string)
    requires Clashes(t, p)
    ensures Render(t) + rest == ['{'] + (Render(p) + (['}'] + rest))
  {
  }

  lemma Regroup(v: string, r: string)
    ensures ['{'] + (v + (['}'] + r)) == "{" + v + "}" + r
  {
  }

  lemma ReplaceInClash(t: Token, p: Token, q: Token, rest: string)
    requires WellFormed(t) && WellFormed(p) && Clashes(t, p)
    ensures ReplaceAll(Render(t) + rest, Render(p), Render(q)) ==
      "{" + Render(q) + "}" + ReplaceAll(rest, Render(p), Render(q))
  {
    var o, v := Render(p), Render(q);
    var tail := ['}'] + rest;
    var inner := o + tail;
    ClashText(t, p, rest);
    assert !(o <= ['{'] + inner) by {
      NoMatchAtStart(t, p, rest);
    }
    ReplaceSkips('{', inner, o, v);
    ReplaceHits(o, tail, v);
    Mismatch(o, tail, 0);
    ReplaceSkips('}', rest, o, v);
    Regroup(v, ReplaceAll(rest, o, v));
  }

  /** Replacing the text of a placeholder or hole, on the text of a well-formed template, token by token. */
  lemma {:induction false} ReplaceIsPieces(ts: seq<Token>, p: Token, q: Token)
    requires AllWellFormed(ts) && WellFormed(p) && !p.Lit?
    ensures Render(p) != [] && ReplaceAll(RenderAll(ts), Render(p), Render(q)) == Pieces(ts, p, q)
    decreases |ts|
  {
    if ts != [] {
      ReplaceOne(ts[0], p, q, RenderAll(ts[1..]));
      ReplaceIsPieces(ts[1..], p, q);
    }
  }

  lemma {:induction false} PiecesSubstitute(ts: seq<Token>, p: Token, q: Token)
    requires NoClash(ts, p)
    ensures Pieces(ts, p, q) == RenderAll(Substitute(ts, p, q))
    decreases |ts|
  {
    if ts != [] {
      assert !Clashes(ts[0], p);
      PiecesSubstitute(ts[1..], p, q);
      assert Substitute(ts, p, q)[1..] == Substitute(ts[1..], p, q);
    }
  }

  lemma NoClashStep(ts: seq<Token>, p: Token)
    requires ts != []
    ensures NoClash(ts, p) <==> !Clashes(ts[0], p) && NoClash(ts[1..], p)
  {
    assert ts == [ts[0]] + ts[1..];
  }

  /** A clash makes the text longer than it should be. */
  lemma {:induction false} PiecesLonger(ts: seq<Token>, p: Token, q: Token)
    requires |Render(q)| > |Render(p)|
    ensures |Pieces(ts, p, q)| >= |RenderAll(Substitute(ts, p, q))|
    ensures !NoClash(ts, p) ==> |Pieces(ts, p, q)| > |RenderAll(Substitute(ts, p, q))|
    decreases |ts|
  {
    if ts != [] {
      PiecesLonger(ts[1..], p, q);
      assert Substitute(ts, p, q)[1..] == Substitute(ts[1..], p, q);
      NoClashStep(ts, p);
      assert Clashes(ts[0], p) ==> |Render(ts[0])| == |Render(p)| + 2;
    }
  }

  /** Replacing the text of a placeholder or hole is replacing that token, wherever it occurs, and nothing
      else, if none clashes with it; and, for a replacement that is longer, only then. */
  lemma {:induction false} ReplaceIsSubstitute(ts: seq<Token>, p: Token, q: Token)
    requires AllWellFormed(ts) && WellFormed(p) && !p.Lit?
    ensures Render(p) != []
    ensures NoClash(ts, p) ==> ReplaceAll(RenderAll(ts), Render(p), Render(q)) == RenderAll(Substitute(ts, p, q))
    ensures !NoClash(ts, p) && |Render(q)| > |Render(p)| ==>
      ReplaceAll(RenderAll(ts), Render(p), Render(q)) != RenderAll(Substitute(ts, p, q))
  {
    ReplaceIsPieces(ts, p, q);
    if NoClash(ts, p) {
      PiecesSubstitute(ts, p, q);
    } else if |Render(q)| > |Render(p)| {
      PiecesLonger(ts, p, q);
    }
  }

  // ---------------------------------------------------------------- filling one hole, exactly

  ghost predicate Contains(s: string, o: string) {
    exists i :: 0 <= i <= |s| && o <= s[i..]
  }

  /** No proper end of the text is also a start of it, so that two matches never overlap. */
  ghost predicate Unbordered(o: string) {
    forall n :: 0 < n < |o| ==> o[n..] != o[..|o| - n]
  }

  /** The text of a hole is like that whenever its key has no braces. */
  lemma HoleUnbordered(k: string)
    requires BraceFree(k)
    ensures Unbordered(Render(Hole(k)))
  {
    var o := Render(Hole(k));
    forall n | 0 < n < |o|
      ensures o[n..] != o[..|o| - n]
    {
      if n == 1 {
        assert o[n..][1] == o[2] == '.' && o[..|o| - n][1] == o[1] == '{';
      } else {
        assert o == "{{" + ("." + k + "}}");
        assert o[n] == ("." + k + "}}")[n - 2] != '{';
        assert o[n..][0] == o[n] && o[..|o| - n][0] == o[0];
      }
    }
  }

  lemma ContainsStep(s: string, o: string)
    requires s != [] && o != []
    ensures Contains(s, o) <==> o <= s || Contains(s[1..], o)
  {
    if i :| 0 <= i <= |s| && o <= s[i..] {
      if i == 0 {
        assert s[0..] == s;
      } else {
        assert s[i..] == s[1..][i - 1..];
      }
    }
    if o <= s {
      assert s[0..] == s;
    }
    if i :| 0 <= i <= |s[1..]| && o <= s[1..][i..] {
      assert s[1..][i..] == s[i + 1..];
    }
  }

  lemma ContainsInner(a: string, b: string, c: string, o: string)
    requires o != [] && Contains(b, o)
    ensures Contains(a + b + c, o)
  {
    var i :| 0 <= i <= |b| && o <= b[i..];
    assert (a + b + c)[|a| + i..] == b[i..] + c;
  }

  lemma ReplaceClean(x: string, o: string, v: string)
    requires o != [] && !Contains(x, o)
    ensures ReplaceAll(x, o, v) == x
  {
    assert x + [] == x;
    SkipsOver(x, [], o, v);
  }

  lemma {:induction false} ReplaceSelf(x: string, o: string)
    requires o != []
    ensures ReplaceAll(x, o, o) == x
    decreases |x|
  {
    if x == [] {
    } else if o <= x {
      var rest := x[|o|..];
      ReplaceSelf(rest, o);
      assert x == o + rest;
    } else {
      var rest := x[1..];
      ReplaceSelf(rest, o);
      assert x == [x[0]] + rest;
    }
  }

  lemma {:induction false} ReplaceLengths(x: string, o: string, v: string)
    requires o != []
    ensures |v| >= |o| ==> |ReplaceAll(x, o, v)| >= |x|
    ensures |v| <= |o| ==> |ReplaceAll(x, o, v)| <= |x|
    ensures Contains(x, o) && |v| > |o| ==> |ReplaceAll(x, o, v)| > |x|
    ensures Contains(x, o) && |v| < |o| ==> |ReplaceAll(x, o, v)| < |x|
    decreases |x|
  {
    if x != [] && o <= x {
      ReplaceLengths(x[|o|..], o, v);
    } else if x != [] {
      ContainsStep(x, o);
      ReplaceLengths(x[1..], o, v);
    }
  }

  lemma {:induction false} ReplaceChanges(x: string, o: string, v: string)
    requires o != [] && Contains(x, o) && |v| == |o| && v != o
    ensures ReplaceAll(x, o, v) != x
    decreases |x|
  {
    if o <= x {
      assert ReplaceAll(x, o, v)[..|o|] == v && x[..|o|] == o;
    } else {
      ContainsStep(x, o);
      ReplaceChanges(x[1..], o, v);
      assert ReplaceAll(x, o, v)[1..] == ReplaceAll(x[1..], o, v);
    }
  }

  /** What replacing does to the length of a text and, for a value as long as what it replaces, to the
      text itself. */
  lemma ReplaceLength(x: string, o: string, v: string)
    requires o != []
    ensures !Contains(x, o) ==> ReplaceAll(x, o, v) == x
    ensures |v| >= |o| ==> |ReplaceAll(x, o, v)| >= |x|
    ensures |v| <= |o| ==> |ReplaceAll(x, o, v)| <= |x|
    ensures Contains(x, o) && |v| > |o| ==> |ReplaceAll(x, o, v)| > |x|
    ensures Contains(x, o) && |v| < |o| ==> |ReplaceAll(x, o, v)| < |x|
    ensures Contains(x, o) && v != o ==> ReplaceAll(x, o, v) != x
    ensures v == o ==> ReplaceAll(x, o, v) == x
  {
    ReplaceLengths(x, o, v);
    ReplaceSelf(x, o);
    if !Contains(x, o) {
      ReplaceClean(x, o, v);
    } else if |v| == |o| && v != o {
      ReplaceChanges(x, o, v);
    }
  }

  /** A match that reaches into what it is looked for in front of would be a border. */
  lemma NoOverlap(x: string, o: string, rest: string)
    requires Unbordered(o) && 0 < |x| < |o|
    ensures !(o <= x + (o + rest))
  {
    var n := |x|;
    assert o[n..] != o[..|o| - n];
    var i :| 0 <= i < |o| - n && o[n..][i] != o[..|o| - n][i];
    var s := x + (o + rest);
    assert s[n + i] == (o + rest)[i] == o[i];
    Mismatch(o, s, n + i);
  }

  /** What stands before a match is replaced on its own. */
  lemma {:induction false} ReplaceAcross(x: string, o: string, rest: string, v: string)
    requires o != [] && Unbordered(o)
    ensures ReplaceAll(x + (o + rest), o, v) == ReplaceAll(x, o, v) + (v + ReplaceAll(rest, o, v))
    decreases |x|
  {
    var s := x + (o + rest);
    if x == [] {
      assert s == o + rest;
      ReplaceHits(o, rest, v);
    } else if o <= s {
      if |x| < |o| {
        NoOverlap(x, o, rest);
      }
      assert o <= x && s[|o|..] == x[|o|..] + (o + rest);
      ReplaceAcross(x[|o|..], o, rest, v);
    } else {
      assert s[1..] == x[1..] + (o + rest) && s[0] == x[0];
      ReplaceAcross(x[1..], o, rest, v);
    }
  }

  /** The pieces from lo up to hi, put together. */
  function Joined(xs: seq<string>, lo: nat, hi: nat): string
    requires hi <= |xs|
    decreases hi - lo
  {
    if lo >= hi then "" else xs[lo] + Joined(xs, lo + 1, hi)
  }

  lemma JoinStep(x: string, inner: string, rest: string, front: string, back: string, all: string)
    requires front == x + inner && back == inner + rest && all == x + back
    ensures all == front + rest
  {
  }

  lemma {:induction false} JoinedSplit(xs: seq<string>, lo: nat, mid: nat, hi: nat)
    requires lo <= mid <= hi <= |xs|
    ensures Joined(xs, lo, hi) == Joined(xs, lo, mid) + Joined(xs, mid, hi)
    decreases mid - lo
  {
    if lo < mid {
      JoinedSplit(xs, lo + 1, mid, hi);
      JoinStep(xs[lo], Joined(xs, lo + 1, mid), Joined(xs, mid, hi), Joined(xs, lo, mid), Joined(xs, lo + 1, hi),
        Joined(xs, lo, hi));
    }
  }

  lemma JoinedAround(xs: seq<string>, lo: nat, n: nat, hi: nat)
    requires lo <= n < hi <= |xs|
    ensures Joined(xs, lo, hi) == Joined(xs, lo, n) + (xs[n] + Joined(xs, n + 1, hi))
  {
    JoinedSplit(xs, lo, n, hi);
  }

  lemma {:induction false} JoinedSame(xs: seq<string>, ys: seq<string>, lo: nat, hi: nat)
    requires hi <= |xs| && hi <= |ys| && forall i :: lo <= i < hi ==> ys[i] == xs[i]
    ensures Joined(ys, lo, hi) == Joined(xs, lo, hi)
    decreases hi - lo
  {
    if lo < hi {
      JoinedSame(xs, ys, lo + 1, hi);
    }
  }

  predicate Unmarked(marks: seq<bool>, lo: nat, hi: nat)
    requires hi <= |marks|
  {
    forall i :: lo <= i < hi ==> !marks[i]
  }

  /** From piece `start` on, no stretch of unmarked pieces contains o. */
  ghost predicate NoMoreFrom(xs: seq<string>, marks: seq<bool>, o: string, start: nat)
    requires |marks| == |xs|
  {
    forall lo: nat, hi: nat {:trigger Joined(xs, lo, hi)} :: start <= lo <= hi <= |xs| && Unmarked(marks, lo, hi) ==>
      !Contains(Joined(xs, lo, hi), o)
  }

  /** The first mark from `start` on, if there is one, else the end. */
  function FirstMark(marks: seq<bool>, start: nat): (n: nat)
    requires start <= |marks|
    ensures start <= n <= |marks| && Unmarked(marks, start, n) && (n < |marks| ==> marks[n])
    decreases |marks| - start
  {
    if start == |marks| || marks[start] then start else FirstMark(marks, start + 1)
  }

  lemma WithinStretch(xs: seq<string>, start: nat, lo: nat, hi: nat, end: nat, o: string)
    requires start <= lo <= hi <= end <= |xs| && o != [] && !Contains(Joined(xs, start, end), o)
    ensures !Contains(Joined(xs, lo, hi), o)
  {
    JoinedSplit(xs, start, hi, end);
    JoinedSplit(xs, start, lo, hi);
    if Contains(Joined(xs, lo, hi), o) {
      ContainsInner(Joined(xs, start, lo), Joined(xs, lo, hi), Joined(xs, hi, end), o);
    }
  }

  /** The stretch before the first mark, and what follows that mark, count on their own. */
  lemma NoMoreSplit(xs: seq<string>, marks: seq<bool>, o: string, start: nat, n: nat)
    requires |marks| == |xs| && start <= n <= |xs| && n == FirstMark(marks, start) && o != []
    ensures NoMoreFrom(xs, marks, o, start) <==>
      !Contains(Joined(xs, start, n), o) && NoMoreFrom(xs, marks, o, n + 1)
  {
    if !Contains(Joined(xs, start, n), o) && NoMoreFrom(xs, marks, o, n + 1) {
      forall lo: nat, hi: nat | start <= lo <= hi <= |xs| && Unmarked(marks, lo, hi)
        ensures !Contains(Joined(xs, lo, hi), o)
      {
        if hi <= n {
          WithinStretch(xs, start, lo, hi, n, o);
        }
      }
    }
  }

  /** How the text with all matches replaced compares with the text wanted, which has only the holes replaced. */
  ghost predicate Compares(got: string, wanted: string, v: string, o: string, clean: bool) {
    && (|v| >= |o| ==> |got| >= |wanted|) && (|v| <= |o| ==> |got| <= |wanted|)
    && (clean || v == o ==> got == wanted) && (!clean && v != o ==> got != wanted)
    && (!clean && |v| > |o| ==> |got| > |wanted|) && (!clean && |v| < |o| ==> |got| < |wanted|)
  }

  lemma ComparesJoin(x: string, x': string, cleanX: bool, r: string, r': string, cleanR: bool, v: string, o: string)
    requires Compares(x', x, v, o, cleanX) && Compares(r', r, v, o, cleanR)
    ensures Compares(x' + (v + r'), x + (v + r), v, o, cleanX && cleanR)
  {
    if |v| == |o| {
      var got, wanted := x' + (v + r'), x + (v + r);
      assert got[..|x|] == x' && wanted[..|x|] == x;
      assert got[|x| + |v|..] == r' && wanted[|x| + |v|..] == r;
    }
  }

  /** The pieces with those marked replaced. */
  ghost predicate MarkedReplaced(xs: seq<string>, ys: seq<string>, marks: seq<bool>, o: string, v: string) {
    && |ys| == |xs| == |marks|
    && forall i :: 0 <= i < |xs| ==> if marks[i] then xs[i] == o && ys[i] == v else ys[i] == xs[i]
  }

  lemma {:induction false} ReplacedCompares(xs: seq<string>, ys: seq<string>, marks: seq<bool>, o: string, v: string,
      start: nat)
    requires MarkedReplaced(xs, ys, marks, o, v) && o != [] && Unbordered(o) && start <= |xs|
    ensures Compares(ReplaceAll(Joined(xs, start, |xs|), o, v), Joined(ys, start, |ys|), v, o,
      NoMoreFrom(xs, marks, o, start))
    decreases |xs| - start
  {
    var n, end := FirstMark(marks, start), |xs|;
    var x := Joined(xs, start, n);
    ReplaceLength(x, o, v);
    JoinedSame(xs, ys, start, n);
    NoMoreSplit(xs, marks, o, start, n);
    if n < end {
      JoinedAround(xs, start, n, end);
      JoinedAround(ys, start, n, end);
      ReplacedCompares(xs, ys, marks, o, v, n + 1);
      AroundHole(x, o, Joined(xs, n + 1, end), Joined(ys, n + 1, end), NoMoreFrom(xs, marks, o, n + 1), v,
                 Joined(xs, start, end), Joined(ys, start, end));
    }
  }

  /** What comes before a hole, the hole, and what comes after it, together. */
  lemma AroundHole(
    x: string, o: string, rest: string, rest': string, clean: bool, v: string, whole: string, whole': string)
    requires o != [] && Unbordered(o) && Compares(ReplaceAll(rest, o, v), rest', v, o, clean)
    requires whole == x + (o + rest) && whole' == x + (v + rest')
    ensures Compares(ReplaceAll(whole, o, v), whole', v, o, !Contains(x, o) && clean)
  {
    ReplaceLength(x, o, v);
    ReplaceAcross(x, o, rest, v);
    ComparesJoin(x, ReplaceAll(x, o, v), !Contains(x, o), rest', ReplaceAll(rest, o, v), clean, v, o);
  }

  /** The texts of the tokens, one by one. */
  function Texts(ts: seq<Token>): (xs: seq<string>)
    ensures |xs| == |ts| && forall i :: 0 <= i < |ts| ==> xs[i] == Render(ts[i])
  {
    seq(|ts|, i requires 0 <= i < |ts| => Render(ts[i]))
  }

  lemma {:induction false} RenderFrom(ts: seq<Token>, lo: nat)
    requires lo <= |ts|
    ensures RenderAll(ts[lo..]) == Joined(Texts(ts), lo, |ts|)
    decreases |ts| - lo
  {
    if lo < |ts| {
      assert ts[lo..][0] == ts[lo] && ts[lo..][1..] == ts[lo + 1..];
      RenderFrom(ts, lo + 1);
    }
  }

  lemma RenderIsJoined(ts: seq<Token>)
    ensures RenderAll(ts) == Joined(Texts(ts), 0, |ts|)
  {
    assert ts[0..] == ts;
    RenderFrom(ts, 0);
  }

  /** Where the holes of k are. */
  function HolesOf(ts: seq<Token>, k: string): (marks: seq<bool>)
    ensures |marks| == |ts| && forall i :: 0 <= i < |ts| ==> (marks[i] <==> ts[i] == Hole(k))
  {
    seq(|ts|, i requires 0 <= i < |ts| => ts[i] == Hole(k))
  }

  /** No stretch of the template without a hole of k has the text of one. */
  ghost predicate SpellsNoMore(ts: seq<Token>, k: string) {
    NoMoreFrom(Texts(ts), HolesOf(ts, k), Render(Hole(k)), 0)
  }

  lemma HolesReplaced(ts: seq<Token>, k: string, v: string)
    ensures MarkedReplaced(Texts(ts), Texts(Substitute(ts, Hole(k), Lit(v))), HolesOf(ts, k), Render(Hole(k)), v)
  {
  }

  /** Replacing the text of a hole replaces exactly the holes of its key, on any template and with any
      value, if and only if no text between those holes spells one more (or the value is the hole). */
  lemma FillingOneIsRightIff(ts: seq<Token>, k: string, v: string)
    requires Unbordered(Render(Hole(k)))
    ensures ReplaceAll(RenderAll(ts), Render(Hole(k)), v) == RenderAll(Substitute(ts, Hole(k), Lit(v))) <==>
      v == Render(Hole(k)) || SpellsNoMore(ts, k)
  {
    var us := Substitute(ts, Hole(k), Lit(v));
    RenderIsJoined(ts);
    RenderIsJoined(us);
    HolesReplaced(ts, k, v);
    ReplacedCompares(Texts(ts), Texts(us), HolesOf(ts, k), Render(Hole(k)), v, 0);
  }

  // ---------------------------------------------------------------- GeneratePath

  /** The loop of `GeneratePath`, over the parameters in the order in which the runtime yields them. */
  function ReplaceInOrder(buff: string, params: map<string, string>, order: seq<string>): string
    requires Elements(order) <= params.Keys
    decreases |order|
  {
    if order == [] then buff
    else
      assert order[0] in Elements(order) && Elements(order[1..]) <= Elements(order);
      ReplaceInOrder(ReplaceAll(buff, Render(Hole(order[0])), params[order[0]]), params, order[1..])
  }

  class Request {
    var Params: map<string, string>
    var Path: string

    constructor (params: map<string, string>)
      ensures Params == params
    {
      Params := params;
      Path := "";
    }

    method GeneratePath(URLPattern: string) returns (ghost order: seq<string>)
      modifies this`Path
      ensures Enumerates(order, Params.Keys)
      ensures Path == ReplaceInOrder(URLPattern, Params, order)
    {
      order := [];
      if |Params| == 0 {
        Path := URLPattern;
        return;
      }
      var buff := URLPattern;
      var remaining := Params.Keys;
      while remaining != {}
        invariant remaining <= Params.Keys && Enumerates(order, Params.Keys - remaining)
        invariant buff == ReplaceInOrder(URLPattern, Params, order)
        decreases remaining
      {
        var k :| k in remaining;
        ReplaceSnoc(URLPattern, Params, order, k);
        buff := ReplaceAll(buff, "{{." + k + "}}", Params[k]);
        EnumerationStep(order, Params.Keys, remaining, k);
        order := order + [k];
        remaining := remaining - {k};
      }
      Path := buff;
    }
  }

  lemma {:induction false} ReplaceSnoc(buff: string, params: map<string, string>, order: seq<string>, k: string)
    requires Elements(order) <= params.Keys && k in params
    ensures Elements(order + [k]) == Elements(order) + {k}
    ensures ReplaceInOrder(buff, params, order + [k]) ==
      ReplaceAll(ReplaceInOrder(buff, params, order), Render(Hole(k)), params[k])
    decreases |order|
  {
    assert Elements(order + [k]) == Elements(order) + {k};
    if order == [] {
      assert order + [k] == [k] && [k][1..] == [];
    } else {
      assert (order + [k])[1..] == order[1..] + [k] && (order + [k])[0] == order[0] && order[0] in Elements(order);
      assert Elements(order[1..]) <= Elements(order);
      ReplaceSnoc(ReplaceAll(buff, Render(Hole(order[0])), params[order[0]]), params, order[1..], k);
    }
  }

  // ---------------------------------------------------------------- the meaning of filling

  /** Every hole whose key has a value takes that value; all holes at once. */
  function Filled(ts: seq<Token>, params: map<string, string>, done: set<string>): (r: seq<Token>)
    requires done <= params.Keys
    ensures |r| == |ts|
  {
    seq(|ts|, i requires 0 <= i < |ts| =>
      if ts[i].Hole? && ts[i].key in done then Lit(params[ts[i].key]) else ts[i])
  }

  /** Keys whose holes cannot overlap; keys without braces are such. */
  ghost predicate KeysStandAlone(params: map<string, string>) {
    forall k :: k in params ==> Unbordered(Render(Hole(k)))
  }

  /** The template after the first i parameters. */
  function FilledAt(ts: seq<Token>, params: map<string, string>, order: seq<string>, i: nat): seq<Token>
    requires i <= |order| && Elements(order) <= params.Keys
  {
    Filled(ts, params, Elements(order[..i]))
  }

  /** The text after the first i parameters. */
  function FilledText(ts: seq<Token>, params: map<string, string>, order: seq<string>, i: nat): string
    requires i <= |order| && Elements(order) <= params.Keys
  {
    ReplaceInOrder(RenderAll(ts), params, order[..i])
  }

  /** At its turn, no parameter finds its hole spelled by what stands between its holes. */
  ghost predicate FillsCleanly(ts: seq<Token>, params: map<string, string>, order: seq<string>)
    requires Elements(order) <= params.Keys
  {
    forall i :: 0 <= i < |order| ==> TurnIsClean(ts, params, order, i)
  }

  ghost predicate TurnIsClean(ts: seq<Token>, params: map<string, string>, order: seq<string>, i: nat)
    requires i < |order| && Elements(order) <= params.Keys
  {
    assert order[i] in Elements(order);
    params[order[i]] == Render(Hole(order[i])) || SpellsNoMore(FilledAt(ts, params, order, i), order[i])
  }

  lemma FilledSnoc(ts: seq<Token>, params: map<string, string>, order: seq<string>, i: nat)
    requires i < |order| && Elements(order) <= params.Keys
    ensures FilledText(ts, params, order, i + 1) ==
      ReplaceAll(FilledText(ts, params, order, i), Render(Hole(order[i])), params[order[i]])
    ensures FilledAt(ts, params, order, i + 1) ==
      Substitute(FilledAt(ts, params, order, i), Hole(order[i]), Lit(params[order[i]]))
  {
    assert order[..i + 1] == order[..i] + [order[i]];
    ReplaceSnoc(RenderAll(ts), params, order[..i], order[i]);
  }

  lemma FilledStep(ts: seq<Token>, params: map<string, string>, order: seq<string>, i: nat)
    requires KeysStandAlone(params) && Elements(order) <= params.Keys && i < |order|
    requires FilledText(ts, params, order, i) == RenderAll(FilledAt(ts, params, order, i))
    ensures FilledText(ts, params, order, i + 1) == RenderAll(FilledAt(ts, params, order, i + 1)) <==>
      TurnIsClean(ts, params, order, i)
  {
    FilledSnoc(ts, params, order, i);
    assert order[i] in Elements(order);
    FillingOneIsRightIff(FilledAt(ts, params, order, i), order[i], params[order[i]]);
  }

  lemma FilledNone(ts: seq<Token>, params: map<string, string>, order: seq<string>)
    requires Elements(order) <= params.Keys
    ensures FilledAt(ts, params, order, 0) == ts && FilledText(ts, params, order, 0) == RenderAll(ts)
  {
    assert order[..0] == [];
  }

  lemma {:induction false} FilledUpTo(ts: seq<Token>, params: map<string, string>, order: seq<string>, i: nat)
    requires KeysStandAlone(params) && Elements(order) <= params.Keys && i <= |order|
    requires FillsCleanly(ts, params, order)
    ensures FilledText(ts, params, order, i) == RenderAll(FilledAt(ts, params, order, i))
    decreases i
  {
    if i == 0 {
      FilledNone(ts, params, order);
    } else {
      FilledUpTo(ts, params, order, i - 1);
      FilledStep(ts, params, order, i - 1);
    }
  }

  /** On any template, with any values and in any order of the parameters, the byte-level loop fills the
      holes of one key after the other and touches nothing else, exactly if no parameter finds its hole
      spelled elsewhere at its turn. */
  lemma {:induction false} FillingIsRightIff(ts: seq<Token>, params: map<string, string>, order: seq<string>)
    requires KeysStandAlone(params) && Elements(order) <= params.Keys
    ensures (forall i :: 0 <= i <= |order| ==>
      FilledText(ts, params, order, i) == RenderAll(FilledAt(ts, params, order, i))) <==>
      FillsCleanly(ts, params, order)
  {
    if FillsCleanly(ts, params, order) {
      forall i | 0 <= i <= |order|
        ensures FilledText(ts, params, order, i) == RenderAll(FilledAt(ts, params, order, i))
      {
        FilledUpTo(ts, params, order, i);
      }
    }
    if forall i :: 0 <= i <= |order| ==> FilledText(ts, params, order, i) == RenderAll(FilledAt(ts, params, order, i)) {
      forall i | 0 <= i < |order|
        ensures TurnIsClean(ts, params, order, i)
      {
        assert FilledText(ts, params, order, i) == RenderAll(FilledAt(ts, params, order, i));
        assert FilledText(ts, params, order, i + 1) == RenderAll(FilledAt(ts, params, order, i + 1));
        FilledStep(ts, params, order, i);
      }
    }
  }

  /** In particular the generated path has all holes filled at once, then. */
  lemma {:induction false} GeneratePathIsSimultaneous(ts: seq<Token>, params: map<string, string>, order: seq<string>)
    requires KeysStandAlone(params) && Enumerates(order, params.Keys) && FillsCleanly(ts, params, order)
    ensures ReplaceInOrder(RenderAll(ts), params, order) == RenderAll(Filled(ts, params, params.Keys))
  {
    FilledUpTo(ts, params, order, |order|);
    assert order[..|order|] == order;
  }

  // ---------------------------------------------------------------- parameters that are always safe

  /** Every opening brace is followed by something other than an opening brace: so in a text without
      braces, and in a JSON text whose strings are such. */
  predicate OpensNoHole(s: string) {
    forall i {:trigger NoBraceAfter(s, i)} :: 0 <= i < |s| && s[i] == '{' ==> NoBraceAfter(s, i)
  }

  predicate NoBraceAfter(s: string, i: nat) {
    i + 1 < |s| && s[i + 1] != '{'
  }

  predicate Tame(t: Token) {
    if t.Lit? then OpensNoHole(t.s) else WellFormed(t)
  }

  ghost predicate TameParams(params: map<string, string>) {
    forall k :: k in params ==> BraceFree(k) && OpensNoHole(params[k])
  }

  lemma TameStandAlone(params: map<string, string>)
    requires TameParams(params)
    ensures KeysStandAlone(params)
  {
    forall k | k in params
      ensures Unbordered(Render(Hole(k)))
    {
      HoleUnbordered(k);
    }
  }

  /** No hole of another key starts within a tame token. */
  lemma TameNoMatch(t: Token, k: string, rest: string, i: nat)
    requires Tame(t) && BraceFree(k) && t != Hole(k) && i < |Render(t)|
    ensures !(Render(Hole(k)) <= (Render(t) + rest)[i..])
  {
    var s, o := (Render(t) + rest)[i..], Render(Hole(k));
    if t.Lit? {
      assert s[0] == t.s[i];
      if t.s[i] == '{' {
        assert NoBraceAfter(t.s, i);
        assert s[1] == t.s[i + 1] && o[1] == '{';
        Mismatch(o, s, 1);
      } else {
        Mismatch(o, s, 0);
      }
    } else if i == 0 {
      assert s == Render(t) + rest;
      NoMatchAtStart(t, Hole(k), rest);
    } else {
      NoMatchInside(t, Hole(k), rest, i);
    }
  }

  lemma NowhereIn(x: string, rest: string, o: string)
    requires !Contains(rest, o) && forall i :: 0 <= i < |x| ==> !(o <= (x + rest)[i..])
    ensures !Contains(x + rest, o)
  {
    forall i | 0 <= i <= |x + rest|
      ensures !(o <= (x + rest)[i..])
    {
      if i >= |x| {
        assert (x + rest)[i..] == rest[i - |x|..];
      }
    }
  }

  lemma {:induction false} TameSpellsNone(ts: seq<Token>, k: string, lo: nat, hi: nat)
    requires BraceFree(k) && hi <= |ts| && Unmarked(HolesOf(ts, k), lo, hi) && forall i :: lo <= i < hi ==> Tame(ts[i])
    ensures !Contains(Joined(Texts(ts), lo, hi), Render(Hole(k)))
    decreases hi - lo
  {
    if lo < hi {
      TameSpellsNone(ts, k, lo + 1, hi);
      TameInFront(ts[lo], k, Joined(Texts(ts), lo + 1, hi));
    } else {
      NoHoleInNothing(k);
    }
  }

  lemma NoHoleInNothing(k: string)
    ensures !Contains("", Render(Hole(k)))
  {
  }

  lemma TameInFront(t: Token, k: string, rest: string)
    requires Tame(t) && BraceFree(k) && t != Hole(k) && !Contains(rest, Render(Hole(k)))
    ensures !Contains(Render(t) + rest, Render(Hole(k)))
  {
    var x, o := Render(t), Render(Hole(k));
    forall i | 0 <= i < |x|
      ensures !(o <= (x + rest)[i..])
    {
      TameNoMatch(t, k, rest, i);
    }
    NowhereIn(x, rest, o);
  }

  /** Values that open no hole are filled in cleanly, in every order. */
  lemma TameFillsCleanly(ts: seq<Token>, params: map<string, string>, order: seq<string>)
    requires (forall i :: 0 <= i < |ts| ==> Tame(ts[i])) && TameParams(params) && Elements(order) <= params.Keys
    ensures KeysStandAlone(params) && FillsCleanly(ts, params, order)
  {
    TameStandAlone(params);
    forall i | 0 <= i < |order|
      ensures TurnIsClean(ts, params, order, i)
    {
      var now, k := FilledAt(ts, params, order, i), order[i];
      assert k in Elements(order);
      assert forall j :: 0 <= j < |now| ==> Tame(now[j]);
      forall lo: nat, hi: nat | lo <= hi <= |now| && Unmarked(HolesOf(now, k), lo, hi)
        ensures !Contains(Joined(Texts(now), lo, hi), Render(Hole(k)))
      {
        TameSpellsNone(now, k, lo, hi);
      }
    }
  }

  /** Then the path does not depend on the order. */
  lemma TameOrderIrrelevant(ts: seq<Token>, params: map<string, string>, order: seq<string>, order': seq<string>)
    requires (forall i :: 0 <= i < |ts| ==> Tame(ts[i])) && TameParams(params)
    requires Enumerates(order, params.Keys) && Enumerates(order', params.Keys)
    ensures ReplaceInOrder(RenderAll(ts), params, order) == ReplaceInOrder(RenderAll(ts), params, order')
  {
    TameFillsCleanly(ts, params, order);
    TameFillsCleanly(ts, params, order');
    GeneratePathIsSimultaneous(ts, params, order);
    GeneratePathIsSimultaneous(ts, params, order');
  }

  lemma ReplaceWhole(s: string, v: string)
    requires s != []
    ensures ReplaceAll(s, s, v) == v
  {
    assert s[|s|..] == [] && v + [] == v;
  }

  lemma ReplaceNothing(s: string, o: string, v: string)
    requires o != [] && |o| == |s| && s != o
    ensures ReplaceAll(s, o, v) == s
  {
    assert s + [] == s;
    assert forall i :: 0 <= i < |s| ==> o <= (s + [])[i..] ==> |o| <= |s| - i;
    SkipsOver(s, [], o, v);
  }

  lemma TwoSteps(buff: string, params: map<string, string>, k: string, k': string)
    requires k in params && k' in params
    ensures Elements([k, k']) == {k, k'}
    ensures ReplaceInOrder(buff, params, [k, k']) ==
      ReplaceAll(ReplaceAll(buff, Render(Hole(k)), params[k]), Render(Hole(k')), params[k'])
  {
    assert [k, k'] == [] + [k] + [k'] && [k] == [] + [k];
    ReplaceSnoc(buff, params, [], k);
    ReplaceSnoc(buff, params, [k], k');
  }

  lemma HoleText(c: char)
    ensures Render(Hole([c])) == ['{', '{', '.', c, '}', '}']
  {
  }

  /** How placeholders and holes are written. */
  lemma TokenTexts(name: string)
    ensures Render(Placeholder(name)) == ['{'] + name + ['}']
    ensures Render(Hole(name)) == ['{', '{', '.'] + name + ['}', '}']
  {
  }

  lemma HoleTexts()
    ensures Render(Hole("a")) == "{{.a}}" && Render(Hole("b")) == "{{.b}}" && "{{.a}}" != "{{.b}}"
  {
    HoleText('a');
    HoleText('b');
    assert "{{.a}}"[3] != "{{.b}}"[3];
  }

  lemma HoleIsFilled(params: map<string, string>)
    requires params == map["a" := "{{.b}}", "b" := "x"]
    ensures ReplaceInOrder("{{.a}}", params, ["a", "b"]) == "x"
  {
    TwoSteps("{{.a}}", params, "a", "b");
    HoleTexts();
    ReplaceWhole("{{.a}}", "{{.b}}");
    ReplaceWhole("{{.b}}", "x");
  }

  lemma HoleIsLeft(params: map<string, string>)
    requires params == map["a" := "{{.b}}", "b" := "x"]
    ensures ReplaceInOrder("{{.a}}", params, ["b", "a"]) == "{{.b}}"
  {
    TwoSteps("{{.a}}", params, "b", "a");
    HoleTexts();
    ReplaceNothing("{{.a}}", "{{.b}}", "x");
    ReplaceWhole("{{.a}}", "{{.b}}");
  }

  lemma HoleAlone()
    ensures RenderAll([Hole("a")]) == "{{.a}}"
  {
    HoleTexts();
    assert [Hole("a")][1..] == [] && "{{.a}}" + "" == "{{.a}}";
  }

  lemma NotFilledRight(params: map<string, string>, order: seq<string>)
    requires params == map["a" := "{{.b}}", "b" := "x"] && Enumerates(order, params.Keys)
    requires ReplaceInOrder(RenderAll([Hole("a")]), params, order) == "x"
    ensures !FillsCleanly([Hole("a")], params, order)
  {
    HoleUnbordered("a");
    HoleUnbordered("b");
    assert KeysStandAlone(params);
    var filled := Filled([Hole("a")], params, params.Keys);
    assert filled[0] == Lit("{{.b}}");
    assert |RenderAll(filled)| >= 6;
    if FillsCleanly([Hole("a")], params, order) {
      GeneratePathIsSimultaneous([Hole("a")], params, order);
    }
  }

  /** Values with braces are another matter: one that spells a hole is filled or not as the iteration
      order happens to be. */
  lemma BracesMakeOrderMatter() returns (params: map<string, string>, order: seq<string>, order': seq<string>)
    ensures Enumerates(order, params.Keys) && Enumerates(order', params.Keys)
    ensures ReplaceInOrder("{{.a}}", params, order) == "x"
    ensures ReplaceInOrder("{{.a}}", params, order') == "{{.b}}"
  {
    params := map["a" := "{{.b}}", "b" := "x"];
    order, order' := ["a", "b"], ["b", "a"];
    HoleIsFilled(params);
    HoleIsLeft(params);
  }

  /** The first of these orders is not clean. */
  lemma SpelledHoleIsNotClean(params: map<string, string>, order: seq<string>)
    requires params == map["a" := "{{.b}}", "b" := "x"] && order == ["a", "b"]
    ensures Enumerates(order, params.Keys) && !FillsCleanly([Hole("a")], params, order)
  {
    HoleIsFilled(params);
    HoleAlone();
    NotFilledRight(params, order);
  }
}
