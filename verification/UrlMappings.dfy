/** Checking and rewriting a backend's URL pattern at configuration time (config/config.go). */
module UrlMappings {
  import opened Permutations
  import opened Sorting
  import opened PathTemplate

  // ---------------------------------------------------------------- sorted sets

  ghost predicate StrictlyIncreasing(s: seq<string>) {
    forall i, j :: 0 <= i < j < |s| ==> StringLess(s[i], s[j])
  }

  lemma IncreasingIsDistinct(s: seq<string>)
    requires StrictlyIncreasing(s)
    ensures Distinct(s)
  {
    StringLessIsTotalOrder();
  }

  /** `fromSetToSortedSlice`. */
  method FromSetToSortedSlice(keys: set<string>) returns (res: array<string>)
    ensures fresh(res) && StrictlyIncreasing(res[..]) && Enumerates(res[..], keys)
    ensures res.Length == |keys|
  {
    var s := [];
    var remaining := keys;
    while remaining != {}
      invariant remaining <= keys && Enumerates(s, keys - remaining) && |s| + |remaining| == |keys|
      decreases remaining
    {
      var element :| element in remaining;
      EnumerationStep(s, keys, remaining, element);
      s := s + [element];
      remaining := remaining - {element};
    }
    assert keys - {} == keys;
    res := new string[|s|](i requires 0 <= i < |s| => s[i]);
    assert res[..] == s;
    StringLessIsTotalOrder();
    Sort(StringLess, res);
    PermutedEnumerates(s, res[..], keys);
    SortedDistinctIncreases(res[..]);
  }

  lemma PermutedEnumerates(s: seq<string>, t: seq<string>, keys: set<string>)
    requires Permuted(t, s) && Enumerates(s, keys)
    ensures Enumerates(t, keys)
  {
    forall x
      ensures x in Elements(t) <==> x in keys
    {
      assert x in t <==> x in multiset(t);
      assert x in s <==> x in multiset(s);
      assert x in s <==> x in Elements(s);
    }
    forall i, j | 0 <= i < j < |t|
      ensures t[i] != t[j]
    {
      DistinctCount(s, t[i]);
      if t[i] == t[j] {
        CountTwice(t, i, j);
      }
    }
  }

  lemma CountTwice<T>(t: seq<T>, i: nat, j: nat)
    requires i < j < |t| && t[i] == t[j]
    ensures multiset(t)[t[i]] >= 2
  {
    assert t == t[..i] + [t[i]] + t[i + 1..j] + [t[j]] + t[j + 1..];
  }

  lemma SortedDistinctIncreases(s: seq<string>)
    requires Sorted(StringLess, s) && Distinct(s)
    ensures StrictlyIncreasing(s)
  {
    StringLessIsTotalOrder();
  }

  /** How many names of the list the pattern for sequential parameters does not match. */
  function PlainCount(s: seq<string>, isSequential: string -> bool): nat {
    if s == [] then 0 else PlainCount(s[..|s| - 1], isSequential) + if isSequential(s[|s| - 1]) then 0 else 1
  }

  /** The names of a slice that are not sequential parameters. */
  function PlainNames(s: seq<string>, isSequential: string -> bool): set<string> {
    set x | x in s && !isSequential(x)
  }

  lemma {:induction false} PlainCountIsCardinality(s: seq<string>, isSequential: string -> bool)
    requires Distinct(s)
    ensures PlainCount(s, isSequential) == |PlainNames(s, isSequential)|
    decreases |s|
  {
    if s == [] {
      assert PlainNames(s, isSequential) == {};
    } else {
      var rest, last := s[..|s| - 1], s[|s| - 1];
      PlainCountIsCardinality(rest, isSequential);
      PlainNamesSnoc(rest, last, isSequential);
      assert s == rest + [last] && last !in rest;
    }
  }

  lemma PlainNamesSnoc(rest: seq<string>, last: string, isSequential: string -> bool)
    ensures PlainNames(rest + [last], isSequential) ==
      PlainNames(rest, isSequential) + (if isSequential(last) then {} else {last})
    ensures last !in rest ==> last !in PlainNames(rest, isSequential)
  {
  }

  lemma CountIsOfPlainNames(s: seq<string>, isSequential: string -> bool)
    requires Distinct(s)
    ensures PlainCount(s, isSequential) == |set x | x in s && !isSequential(x)|
  {
    PlainCountIsCardinality(s, isSequential);
    assert PlainNames(s, isSequential) == set x | x in s && !isSequential(x);
  }

  // ---------------------------------------------------------------- uniqueOutput

  /** Sorts the names in place and moves one copy of each to the front. The result is the length of
      that front, and the count the source returns: of its names without the last one. */
  method UniqueOutput(output: array<string>, isSequential: string -> bool) returns (n: nat, outputSetSize: nat)
    modifies output
    ensures n <= output.Length
    ensures StrictlyIncreasing(output[..n]) && Elements(output[..n]) == Elements(old(output[..]))
    ensures n == 0 ==> outputSetSize == 0
    ensures n > 0 ==> outputSetSize == PlainCount(output[..n - 1], isSequential)
  {
    StringLessIsTotalOrder();
    Sort(StringLess, output);
    SameElements(output[..], old(output[..]));
    if output.Length == 0 {
      return 0, 0;
    }
    n, outputSetSize := Compress(output, isSequential);
  }

  /** The loop of `uniqueOutput`, on a sorted slice: `front` is what lies before and at `j`. */
  method Compress(output: array<string>, isSequential: string -> bool) returns (n: nat, outputSetSize: nat)
    requires output.Length > 0 && Sorted(StringLess, output[..])
    modifies output
    ensures 0 < n <= output.Length
    ensures StrictlyIncreasing(output[..n]) && Elements(output[..n]) == Elements(old(output[..]))
    ensures outputSetSize == PlainCount(output[..n - 1], isSequential)
  {
    ghost var sorted := output[..];
    var j := 0;
    outputSetSize := 0;
    ghost var front := [output[0]];
    for i := 1 to output.Length
      invariant 0 <= j < i <= output.Length
      invariant forall k :: i <= k < output.Length ==> output[k] == sorted[k]
      invariant |front| == j + 1 && output[..j + 1] == front
      invariant Deduplicated(sorted, i, front)
      invariant outputSetSize == PlainCount(front[..j], isSequential)
    {
      DedupStep(sorted, i, front);
      assert output[j] == front[j];
      if output[j] == output[i] {
        continue;
      }
      if !isSequential(output[j]) {
        outputSetSize := outputSetSize + 1;
      }
      PlainCountSnoc(front, isSequential);
      j := j + 1;
      output[j] := output[i];
      front := front + [sorted[i]];
      assert front[..j] == front[..|front| - 1];
    }
    assert sorted[..output.Length] == sorted;
    n := j + 1;
    assert output[..n - 1] == front[..j];
  }

  /** `front` holds the different names among the first `i` of a sorted slice, in order. */
  ghost predicate Deduplicated(sorted: seq<string>, i: nat, front: seq<string>) {
    && 0 < i <= |sorted| && front != []
    && StrictlyIncreasing(front) && Elements(front) == Elements(sorted[..i]) && front[|front| - 1] == sorted[i - 1]
  }

  lemma DedupStep(sorted: seq<string>, i: nat, front: seq<string>)
    requires Sorted(StringLess, sorted) && i < |sorted| && Deduplicated(sorted, i, front)
    ensures front[|front| - 1] == sorted[i] ==> Deduplicated(sorted, i + 1, front)
    ensures front[|front| - 1] != sorted[i] ==> Deduplicated(sorted, i + 1, front + [sorted[i]])
  {
    assert sorted[..i + 1] == sorted[..i] + [sorted[i]];
    assert Elements(sorted[..i + 1]) == Elements(sorted[..i]) + {sorted[i]};
    if front[|front| - 1] != sorted[i] {
      assert !StringLess(sorted[i], sorted[i - 1]);
      StringLessTrichotomy(sorted[i - 1], sorted[i]);
      FrontGrows(front, sorted[i]);
      assert Elements(front + [sorted[i]]) == Elements(front) + {sorted[i]};
    } else {
      assert front[|front| - 1] in Elements(front);
    }
  }

  lemma PlainCountSnoc(front: seq<string>, isSequential: string -> bool)
    requires front != []
    ensures PlainCount(front, isSequential) ==
      PlainCount(front[..|front| - 1], isSequential) + if isSequential(front[|front| - 1]) then 0 else 1
  {
  }

  lemma FrontGrows(front: seq<string>, x: string)
    requires front != [] && StrictlyIncreasing(front) && StringLess(front[|front| - 1], x)
    ensures StrictlyIncreasing(front + [x])
  {
    StringLessIsTotalOrder();
    forall i | 0 <= i < |front|
      ensures StringLess(front[i], x)
    {
      if i < |front| - 1 {
        StringLessTransitive(front[i], front[|front| - 1], x);
      }
    }
  }

  lemma SameElements<T>(s: seq<T>, t: seq<T>)
    requires Permuted(s, t)
    ensures Elements(s) == Elements(t)
  {
    forall x
      ensures x in s <==> x in t
    {
      assert x in s <==> x in multiset(s);
      assert x in t <==> x in multiset(t);
    }
  }

  // ---------------------------------------------------------------- the two checks

  ghost predicate AllDeclared(names: seq<string>, inputs: set<string>, isSequential: string -> bool) {
    forall x :: x in names && !isSequential(x) ==> x in inputs
  }

  /** Pigeonhole: the count check, although it leaves the last name out, only ever rejects what the
      membership check would reject too. */
  lemma {:induction false} CountCheckIsImplied(outputs: seq<string>, inputs: set<string>, isSequential: string -> bool)
    requires outputs != [] && Distinct(outputs)
    requires PlainCount(outputs[..|outputs| - 1], isSequential) > |inputs|
    ensures !AllDeclared(outputs, inputs, isSequential)
  {
    var front := outputs[..|outputs| - 1];
    PlainCountIsCardinality(front, isSequential);
    if PlainNames(front, isSequential) <= inputs {
      SubsetCardinality(PlainNames(front, isSequential), inputs);
    } else {
      var x :| x in PlainNames(front, isSequential) && x !in inputs;
      assert x in outputs && !isSequential(x);
    }
  }

  // ---------------------------------------------------------------- initBackendURLMappings

  /** How a configuration entry fails, with what the error value carries. */
  datatype Outcome =
    | Ok
    | WrongNumberOfParams(inputParams: seq<string>, outputParams: seq<string>)
    | UndefinedOutputParam(param: string, inputParams: seq<string>, outputParams: seq<string>)

  /** `CleanPath`: a leading slash is put in front, in place of the one that may be there. */
  function CleanPath(path: string): string {
    if path != [] && path[0] == '/' then path else "/" + path
  }

  /** A cleaned path starts with a slash: its own, or one put in front of it. */
  lemma CleanPathIs(path: string)
    ensures CleanPath(path) != "" && CleanPath(path)[0] == '/'
    ensures if "/" <= path then CleanPath(path) == path else CleanPath(path)[1..] == path
    ensures CleanPath(CleanPath(path)) == CleanPath(path)
  {
    assert "/" <= path <==> path != "" && path[0] == '/';
  }

  /** The key of a name: its first byte in title case. */
  function KeyOf(name: string, title: string -> string): string
    requires name != ""
  {
    title(name[..1]) + name[1..]
  }

  ghost predicate AllNamed(names: seq<string>) {
    forall i :: 0 <= i < |names| ==> names[i] != ""
  }

  function KeysOf(names: seq<string>, title: string -> string): seq<string>
    requires AllNamed(names)
  {
    if names == [] then [] else KeysOf(names[..|names| - 1], title) + [KeyOf(names[|names| - 1], title)]
  }

  /** The keys are the names with their first bytes in title case, in the same order. */
  lemma {:induction false} KeysAre(names: seq<string>, title: string -> string)
    requires AllNamed(names)
    ensures |KeysOf(names, title)| == |names|
    ensures forall i :: 0 <= i < |names| ==> KeysOf(names, title)[i] == title([names[i][0]]) + names[i][1..]
    decreases |names|
  {
    if names != [] {
      var n := |names| - 1;
      KeysAre(names[..n], title);
      forall i | 0 <= i < |names|
        ensures KeysOf(names, title)[i] == title([names[i][0]]) + names[i][1..]
      {
        assert names[i][..1] == [names[i][0]];
        assert i < n ==> names[..n][i] == names[i];
      }
    }
  }

  /** The pattern after the placeholders of `names` were rewritten, in that order. */
  function Rewritten(pattern: string, names: seq<string>, title: string -> string): string
    requires AllNamed(names)
    decreases |names|
  {
    if names == [] then pattern
    else
      var last := names[|names| - 1];
      ReplaceAll(Rewritten(pattern, names[..|names| - 1], title), "{" + last + "}", "{{." + KeyOf(last, title) + "}}")
  }

  /** The names before the first that is neither sequential nor declared. */
  function Accepted(names: seq<string>, inputs: set<string>, isSequential: string -> bool): (r: seq<string>)
    ensures r <= names
  {
    if names == [] || (!isSequential(names[0]) && names[0] !in inputs) then []
    else [names[0]] + Accepted(names[1..], inputs, isSequential)
  }

  lemma {:induction false} AcceptedBefore(names: seq<string>, i: nat, inputs: set<string>, isSequential: string -> bool)
    requires i < |names| && AllDeclared(names[..i], inputs, isSequential)
    requires !isSequential(names[i]) && names[i] !in inputs
    ensures Accepted(names, inputs, isSequential) == names[..i]
    decreases i
  {
    if i > 0 {
      assert names[0] in names[..i];
      assert names[..i] == [names[0]] + names[1..][..i - 1];
      AcceptedBefore(names[1..], i - 1, inputs, isSequential);
    }
  }

  class Backend {
    var URLPattern: string
    var URLKeys: seq<string>

    constructor (pattern: string)
      ensures URLPattern == pattern
    {
      URLPattern := pattern;
      URLKeys := [];
    }

    /** `uniqueOutput` on what was found. */
    method OutputsOf(found: seq<string>, isSequential: string -> bool)
        returns (outputs: seq<string>, outputSetSize: nat)
      ensures StrictlyIncreasing(outputs) && Elements(outputs) == Elements(found)
      ensures outputSetSize == if outputs == [] then 0 else PlainCount(outputs[..|outputs| - 1], isSequential)
    {
      var output := new string[|found|](i requires 0 <= i < |found| => found[i]);
      assert output[..] == found;
      var n;
      n, outputSetSize := UniqueOutput(output, isSequential);
      outputs := output[..n];
      assert n > 0 ==> output[..n - 1] == outputs[..n - 1];
    }

    /** `extract` is what the placeholder expression finds in a pattern; it never finds an empty name.
        Success is exactly that every name found, sequential parameters aside, is declared. Then the
        pattern has been rewritten for all of `names`. If the count check fails it has only been cleaned,
        and the keys are as they were; if a name fails, it has been rewritten up to that name. */
    method InitBackendURLMappings(
      inputParams: set<string>, extract: string -> seq<string>, isSequential: string -> bool, title: string -> string)
      returns (r: Outcome, ghost names: seq<string>)
      requires forall s :: AllNamed(extract(s))
      modifies this
      ensures StrictlyIncreasing(names) && AllNamed(names)
      ensures Elements(names) == Elements(extract(CleanPath(old(URLPattern))))
      ensures r.Ok? <==> AllDeclared(extract(CleanPath(old(URLPattern))), inputParams, isSequential)
      ensures r.Ok? ==>
        URLPattern == Rewritten(CleanPath(old(URLPattern)), names, title) && URLKeys == KeysOf(names, title)
      ensures r.WrongNumberOfParams? <==>
        names != [] && |set x | x in names[..|names| - 1] && !isSequential(x)| > |inputParams|
      ensures r.WrongNumberOfParams? ==> URLPattern == CleanPath(old(URLPattern)) && URLKeys == old(URLKeys)
      ensures r.UndefinedOutputParam? ==>
        && FirstUndeclared(r.param, names, inputParams, isSequential)
        && var done := Accepted(names, inputParams, isSequential);
           && |done| < |names| && names[|done|] == r.param
           && URLPattern == Rewritten(CleanPath(old(URLPattern)), done, title) && URLKeys == KeysOf(done, title)
      ensures !r.Ok? ==>
        && r.outputParams == names && StrictlyIncreasing(r.inputParams) && Elements(r.inputParams) == inputParams
    {
      URLPattern := CleanPath(URLPattern);
      var found := extract(URLPattern);
      var outputs, outputSetSize := OutputsOf(found, isSequential);
      names := outputs;
      SameNames(found, names);
      SameDeclared(names, found, inputParams, isSequential);
      IncreasingIsDistinct(names);
      if names != [] {
        CountIsOfPlainNames(names[..|names| - 1], isSequential);
      }
      var ip := FromSetToSortedSlice(inputParams);
      if outputSetSize > ip.Length {
        CountCheckIsImplied(names, inputParams, isSequential);
        r := WrongNumberOfParams(ip[..], outputs);
      } else {
        r := RewriteNames(outputs, ip[..], inputParams, isSequential, title);
      }
    }

    /** The loop over the sorted, distinct names. */
    method RewriteNames(
      outputs: seq<string>, ip: seq<string>, inputParams: set<string>, isSequential: string -> bool,
      title: string -> string)
      returns (r: Outcome)
      requires AllNamed(outputs) && StrictlyIncreasing(outputs)
      modifies this
      ensures r.Ok? <==> AllDeclared(outputs, inputParams, isSequential)
      ensures r.Ok? ==> URLPattern == Rewritten(old(URLPattern), outputs, title) && URLKeys == KeysOf(outputs, title)
      ensures !r.Ok? ==> r.UndefinedOutputParam? && r == UndefinedOutputParam(r.param, ip, outputs)
      ensures !r.Ok? ==> FirstUndeclared(r.param, outputs, inputParams, isSequential)
      ensures !r.Ok? ==>
        var done := Accepted(outputs, inputParams, isSequential);
        && |done| < |outputs| && outputs[|done|] == r.param
        && URLPattern == Rewritten(old(URLPattern), done, title) && URLKeys == KeysOf(done, title)
    {
      URLKeys := [];
      ghost var pattern := URLPattern;
      for i := 0 to |outputs|
        invariant AllDeclared(outputs[..i], inputParams, isSequential)
        invariant URLPattern == Rewritten(pattern, outputs[..i], title) && URLKeys == KeysOf(outputs[..i], title)
      {
        var name := outputs[i];
        if !isSequential(name) && name !in inputParams {
          FailsAt(outputs, i, inputParams, isSequential);
          AcceptedBefore(outputs, i, inputParams, isSequential);
          return UndefinedOutputParam(name, ip, outputs);
        }
        assert outputs[..i + 1][..i] == outputs[..i];
        var key := KeyOf(name, title);
        URLPattern := ReplaceAll(URLPattern, "{" + name + "}", "{{." + key + "}}");
        URLKeys := URLKeys + [key];
      }
      assert outputs[..|outputs|] == outputs;
      return Ok;
    }
  }

  /** The least name that is neither sequential nor declared. */
  ghost predicate FirstUndeclared(param: string, names: seq<string>, inputs: set<string>,
      isSequential: string -> bool) {
    && param in names && !isSequential(param) && param !in inputs
    && forall x :: x in names && StringLess(x, param) ==> isSequential(x) || x in inputs
  }

  lemma SameNames(found: seq<string>, outputs: seq<string>)
    requires AllNamed(found) && Elements(outputs) == Elements(found)
    ensures AllNamed(outputs)
  {
    forall i | 0 <= i < |outputs|
      ensures outputs[i] != ""
    {
      assert outputs[i] in Elements(found);
    }
  }

  lemma SameDeclared(s: seq<string>, t: seq<string>, inputs: set<string>, isSequential: string -> bool)
    requires Elements(s) == Elements(t)
    ensures AllDeclared(s, inputs, isSequential) <==> AllDeclared(t, inputs, isSequential)
  {
    forall x
      ensures x in s <==> x in t
    {
      assert x in s <==> x in Elements(s);
      assert x in t <==> x in Elements(t);
    }
  }

  /** The first name that fails is the least one: those before it are declared or sequential. */
  lemma FailsAt(outputs: seq<string>, i: nat, inputs: set<string>, isSequential: string -> bool)
    requires StrictlyIncreasing(outputs) && i < |outputs| && AllDeclared(outputs[..i], inputs, isSequential)
    requires !isSequential(outputs[i]) && outputs[i] !in inputs
    ensures !AllDeclared(outputs, inputs, isSequential)
    ensures FirstUndeclared(outputs[i], outputs, inputs, isSequential)
  {
    StringLessIsTotalOrder();
    forall x | x in outputs && StringLess(x, outputs[i])
      ensures isSequential(x) || x in inputs
    {
      var k :| 0 <= k < |outputs| && outputs[k] == x;
      assert k < i;
      assert x == outputs[..i][k];
    }
    assert outputs[i] in outputs;
  }

  // ---------------------------------------------------------------- from configuration to request

  /** Names that the placeholder expression can find, with a first byte that title case leaves brace-free. */
  ghost predicate PlainName(name: string, title: string -> string) {
    name != "" && BraceFree(name) && BraceFree(title(name[..1]))
  }

  ghost predicate AllPlain(names: seq<string>, title: string -> string) {
    forall i :: 0 <= i < |names| ==> PlainName(names[i], title)
  }

  /** Every placeholder of `done` has become the hole of its key. */
  function AsHoles(ts: seq<Token>, done: set<string>, title: string -> string): (r: seq<Token>)
    requires forall x :: x in done ==> x != ""
    ensures |r| == |ts|
  {
    seq(|ts|, i requires 0 <= i < |ts| =>
      if ts[i].Placeholder? && ts[i].name in done then Hole(KeyOf(ts[i].name, title)) else ts[i])
  }

  /** No name, at its turn, spells a hole with its dot: none that the template had, none made before. */
  ghost predicate SpellsNoHole(ts: seq<Token>, names: seq<string>, title: string -> string)
    requires AllPlain(names, title)
  {
    forall i :: 0 <= i < |names| ==> NoClash(HolesAt(ts, names, i, title), Placeholder(names[i]))
  }

  function HolesAt(ts: seq<Token>, names: seq<string>, i: nat, title: string -> string): seq<Token>
    requires i <= |names| && AllPlain(names, title)
  {
    AsHoles(ts, Elements(names[..i]), title)
  }

  /** The text after the first i names. */
  function TextAt(ts: seq<Token>, names: seq<string>, i: nat, title: string -> string): string
    requires i <= |names| && AllPlain(names, title)
  {
    Rewritten(RenderAll(ts), names[..i], title)
  }

  lemma TextStep(ts: seq<Token>, names: seq<string>, i: nat, title: string -> string)
    requires i < |names| && AllPlain(names, title)
    ensures TextAt(ts, names, i + 1, title) ==
      ReplaceAll(TextAt(ts, names, i, title), "{" + names[i] + "}", "{{." + KeyOf(names[i], title) + "}}")
    ensures HolesAt(ts, names, i + 1, title) == AsHoles(ts, Elements(names[..i]) + {names[i]}, title)
  {
    assert names[..i + 1][..i] == names[..i];
    ElementsSnoc(names[..i], names[i]);
    assert names[..i + 1] == names[..i] + [names[i]];
  }

  /** On a template, whatever the names, the rewriting turns every placeholder into the hole of its key, one
      name after the other and touching nothing else, exactly if no name spells a hole at its turn. */
  lemma {:induction false} RewritingIsRightIff(ts: seq<Token>, names: seq<string>, title: string -> string)
    requires AllWellFormed(ts) && AllPlain(names, title)
    ensures (forall i :: 0 <= i <= |names| ==>
      TextAt(ts, names, i, title) == RenderAll(HolesAt(ts, names, i, title))) <==>
      SpellsNoHole(ts, names, title)
  {
    if SpellsNoHole(ts, names, title) {
      forall i | 0 <= i <= |names|
        ensures TextAt(ts, names, i, title) == RenderAll(HolesAt(ts, names, i, title))
      {
        RightUpTo(ts, names, i, title);
      }
    }
    if forall i :: 0 <= i <= |names| ==> TextAt(ts, names, i, title) == RenderAll(HolesAt(ts, names, i, title)) {
      forall i | 0 <= i < |names|
        ensures NoClash(HolesAt(ts, names, i, title), Placeholder(names[i]))
      {
        AsHolesWellFormed(ts, names[..i], title);
        TextStep(ts, names, i, title);
        assert TextAt(ts, names, i, title) == RenderAll(HolesAt(ts, names, i, title));
        assert TextAt(ts, names, i + 1, title) == RenderAll(HolesAt(ts, names, i + 1, title));
        OneMoreHole(ts, Elements(names[..i]), names[i], title);
      }
    }
  }

  lemma {:induction false} RightUpTo(ts: seq<Token>, names: seq<string>, i: nat, title: string -> string)
    requires AllWellFormed(ts) && AllPlain(names, title) && i <= |names|
    requires SpellsNoHole(ts, names, title)
    ensures TextAt(ts, names, i, title) == RenderAll(HolesAt(ts, names, i, title))
    decreases i
  {
    if i == 0 {
      assert names[..0] == [] && AsHoles(ts, Elements(names[..0]), title) == ts;
    } else {
      RightUpTo(ts, names, i - 1, title);
      AsHolesWellFormed(ts, names[..i - 1], title);
      TextStep(ts, names, i - 1, title);
      OneMoreHole(ts, Elements(names[..i - 1]), names[i - 1], title);
    }
  }

  lemma AsHolesWellFormed(ts: seq<Token>, names: seq<string>, title: string -> string)
    requires AllWellFormed(ts) && AllPlain(names, title)
    ensures AllWellFormed(AsHoles(ts, Elements(names), title))
  {
    var r := AsHoles(ts, Elements(names), title);
    forall i | 0 <= i < |ts|
      ensures WellFormed(r[i])
    {
      assert WellFormed(ts[i]);
    }
  }

  /** In particular the text for all names. */
  lemma RewrittenIsAsHoles(ts: seq<Token>, names: seq<string>, title: string -> string)
    requires AllWellFormed(ts) && AllPlain(names, title) && SpellsNoHole(ts, names, title)
    ensures AllNamed(names) && forall x :: x in Elements(names) ==> x != ""
    ensures Rewritten(RenderAll(ts), names, title) == RenderAll(AsHoles(ts, Elements(names), title))
    ensures AllWellFormed(AsHoles(ts, Elements(names), title))
  {
    RightUpTo(ts, names, |names|, title);
    AsHolesWellFormed(ts, names, title);
    assert names[..|names|] == names;
  }

  /** Names without a leading dot spell no hole. */
  lemma DotlessSpellNoHole(ts: seq<Token>, names: seq<string>, title: string -> string)
    requires AllPlain(names, title) && forall i :: 0 <= i < |names| ==> names[i][0] != '.'
    ensures SpellsNoHole(ts, names, title)
  {
    forall i | 0 <= i < |names|
      ensures NoClash(HolesAt(ts, names, i, title), Placeholder(names[i]))
    {
    }
  }

  lemma ElementsSnoc<T>(s: seq<T>, x: T)
    ensures Elements(s + [x]) == Elements(s) + {x}
  {
  }

  lemma SubstituteMakesHoles(ts: seq<Token>, done: set<string>, name: string, title: string -> string)
    requires name != "" && forall x :: x in done ==> x != ""
    ensures Substitute(AsHoles(ts, done, title), Placeholder(name), Hole(KeyOf(name, title))) ==
      AsHoles(ts, done + {name}, title)
  {
  }

  /** One more name, exactly. */
  lemma OneMoreHole(ts: seq<Token>, done: set<string>, name: string, title: string -> string)
    requires PlainName(name, title) && forall x :: x in done ==> x != ""
    requires AllWellFormed(AsHoles(ts, done, title))
    ensures NoClash(AsHoles(ts, done, title), Placeholder(name)) <==>
      ReplaceAll(RenderAll(AsHoles(ts, done, title)), "{" + name + "}", "{{." + KeyOf(name, title) + "}}")
        == RenderAll(AsHoles(ts, done + {name}, title))
  {
    ReplaceIsSubstitute(AsHoles(ts, done, title), Placeholder(name), Hole(KeyOf(name, title)));
    SubstituteMakesHoles(ts, done, name, title);
  }

  /** The placeholder names of a template. */
  ghost predicate NamesOf(ts: seq<Token>, names: seq<string>) {
    forall i :: 0 <= i < |ts| && ts[i].Placeholder? ==> ts[i].name in Elements(names)
  }

  /** Each placeholder takes the value of its key, if there is one, and otherwise stays a hole. */
  function FilledIn(ts: seq<Token>, title: string -> string, params: map<string, string>): (r: seq<Token>)
    requires forall i :: 0 <= i < |ts| && ts[i].Placeholder? ==> ts[i].name != ""
    ensures |r| == |ts|
  {
    seq(|ts|, i requires 0 <= i < |ts| =>
      match ts[i]
      case Lit(s) => Lit(s)
      case Hole(key) => if key in params then Lit(params[key]) else Hole(key)
      case Placeholder(name) =>
        var key := KeyOf(name, title);
        if key in params then Lit(params[key]) else Hole(key))
  }

  /** The template as the configuration leaves it. */
  function Configured(ts: seq<Token>, names: seq<string>, title: string -> string): seq<Token>
    requires AllPlain(names, title)
  {
    HolesAt(ts, names, |names|, title)
  }

  /** End to end: a configured template, rewritten when the configuration is read and filled for a
      request, has every placeholder replaced by the value of its key, whatever the order of names,
      if at its turn no parameter finds its hole spelled elsewhere. */
  lemma {:induction false} TemplateEndToEnd(
    ts: seq<Token>, names: seq<string>, title: string -> string, params: map<string, string>, order: seq<string>)
    requires AllWellFormed(ts) && NamesOf(ts, names)
    requires AllPlain(names, title) && SpellsNoHole(ts, names, title)
    requires KeysStandAlone(params) && Enumerates(order, params.Keys)
    requires FillsCleanly(Configured(ts, names, title), params, order)
    ensures AllNamed(names)
    ensures forall i :: 0 <= i < |ts| && ts[i].Placeholder? ==> ts[i].name != ""
    ensures ReplaceInOrder(Rewritten(RenderAll(ts), names, title), params, order)
      == RenderAll(FilledIn(ts, title, params))
  {
    RewrittenIsAsHoles(ts, names, title);
    assert names[..|names|] == names;
    GeneratePathIsSimultaneous(Configured(ts, names, title), params, order);
    FilledHoles(ts, names, title, params);
  }

  /** So for every request whose values open no hole, and names without a leading dot: then no order matters. */
  lemma TameRequestEndToEnd(
    ts: seq<Token>, names: seq<string>, title: string -> string, params: map<string, string>, order: seq<string>)
    requires AllWellFormed(ts) && NamesOf(ts, names)
    requires AllPlain(names, title) && forall i :: 0 <= i < |names| ==> names[i][0] != '.'
    requires TameParams(params) && Enumerates(order, params.Keys)
    ensures AllNamed(names)
    ensures forall i :: 0 <= i < |ts| && ts[i].Placeholder? ==> ts[i].name != ""
    ensures ReplaceInOrder(Rewritten(RenderAll(ts), names, title), params, order)
      == RenderAll(FilledIn(ts, title, params))
  {
    DotlessSpellNoHole(ts, names, title);
    TameConfigured(ts, names, title);
    TameFillsCleanly(Configured(ts, names, title), params, order);
    TemplateEndToEnd(ts, names, title, params, order);
  }

  /** Configured patterns have no braces but those of their holes. */
  lemma TameConfigured(ts: seq<Token>, names: seq<string>, title: string -> string)
    requires AllWellFormed(ts) && AllPlain(names, title)
    ensures forall i :: 0 <= i < |ts| ==> Tame(Configured(ts, names, title)[i])
  {
    AsHolesWellFormed(ts, names, title);
    assert names[..|names|] == names;
    var holes := Configured(ts, names, title);
    forall i | 0 <= i < |ts|
      ensures Tame(holes[i])
    {
      assert WellFormed(holes[i]);
    }
  }

  lemma DashAndDot(title: string -> string)
    requires title("-") == "-" && title(".") == "."
    ensures KeyOf("-x", title) == "-x" && KeyOf(".-x", title) == ".-x"
    ensures PlainName("-x", title) && PlainName(".-x", title)
    ensures StringLess("-x", ".-x") && "-x" != ".-x" && "." + "-x" == ".-x"
  {
    assert "-x"[..1] == "-" && ".-x"[..1] == "." && "-x"[1..] == "x" && ".-x"[1..] == "-x";
    assert '-' < '.';
  }

  /** The template of two placeholders after each of its two names. */
  lemma TwoNamesAt(a: string, b: string, title: string -> string)
    requires PlainName(a, title) && PlainName(b, title) && a != b
    ensures HolesAt([Placeholder(a), Placeholder(b)], [a, b], 0, title) == [Placeholder(a), Placeholder(b)]
    ensures HolesAt([Placeholder(a), Placeholder(b)], [a, b], 1, title) == [Hole(KeyOf(a, title)), Placeholder(b)]
    ensures Configured([Placeholder(a), Placeholder(b)], [a, b], title) ==
      [Hole(KeyOf(a, title)), Hole(KeyOf(b, title))]
  {
    var names := [a, b];
    assert names[..0] == [] && names[..1] == [a] && names[..2] == names;
    assert a in names[..1] && b !in names[..1] && a in names && b in names;
  }

  /** What the rewriting makes of a template of two placeholders, where the second name spells the hole of
      the first. */
  lemma TwoNamesClash(a: string, b: string, title: string -> string)
    requires PlainName(a, title) && PlainName(b, title) && a != b && Clashes(Hole(KeyOf(a, title)), Placeholder(b))
    ensures Rewritten(RenderAll([Placeholder(a), Placeholder(b)]), [a, b], title) ==
      "{" + Render(Hole(KeyOf(b, title))) + "}" + Render(Hole(KeyOf(b, title)))
  {
    var ts, names := [Placeholder(a), Placeholder(b)], [a, b];
    var p, q, keyA, keyB := Placeholder(a), Placeholder(b), Hole(KeyOf(a, title)), Hole(KeyOf(b, title));
    TwoNamesAt(a, b, title);
    TextStep(ts, names, 0, title);
    TextStep(ts, names, 1, title);
    assert names[..0] == [] && names[..2] == names;
    ReplaceIsPieces(ts, p, keyA);
    TwoPieces(p, q, p, keyA);
    TwoTokens(keyA, q);
    AsHolesWellFormed(ts, names[..1], title);
    ReplaceIsPieces([keyA, q], q, keyB);
    TwoPieces(keyA, q, q, keyB);
  }

  /** It does not always hold: of two names that differ by a leading dot, the second spells the hole that the
      first has become, which then gets braces around the wrong key. */
  lemma DotSpellsHole(title: string -> string) returns (ts: seq<Token>, names: seq<string>)
    requires title("-") == "-" && title(".") == "."
    ensures ts == [Placeholder("-x"), Placeholder(".-x")] && names == ["-x", ".-x"]
    ensures AllWellFormed(ts) && NamesOf(ts, names) && AllPlain(names, title) && StrictlyIncreasing(names)
    ensures !SpellsNoHole(ts, names, title)
    ensures Rewritten(RenderAll(ts), names, title) == "{" + Render(Hole(".-x")) + "}" + Render(Hole(".-x"))
    ensures RenderAll(Configured(ts, names, title)) == Render(Hole("-x")) + Render(Hole(".-x"))
  {
    DashAndDot(title);
    ts, names := [Placeholder("-x"), Placeholder(".-x")], ["-x", ".-x"];
    TwoNamesAt("-x", ".-x", title);
    var holes := HolesAt(ts, names, 1, title);
    assert holes[0] == Hole("-x") && Clashes(holes[0], Placeholder(names[1]));
    TwoNamesClash("-x", ".-x", title);
    TwoTokens(Hole("-x"), Hole(".-x"));
  }

  lemma TwoTokens(a: Token, b: Token)
    ensures RenderAll([a, b]) == Render(a) + Render(b)
  {
    assert [a, b][1..] == [b] && [b][1..] == [];
    assert RenderAll([b]) == Render(b) + "" == Render(b);
  }

  lemma TwoPieces(a: Token, b: Token, p: Token, q: Token)
    ensures Pieces([a, b], p, q) == Piece(a, p, q) + Piece(b, p, q)
  {
    assert [a, b][1..] == [b] && [b][1..] == [];
    assert Pieces([b], p, q) == Piece(b, p, q) + "" == Piece(b, p, q);
  }

  lemma FilledHoles(ts: seq<Token>, names: seq<string>, title: string -> string, params: map<string, string>)
    requires NamesOf(ts, names) && forall x :: x in Elements(names) ==> x != ""
    ensures forall i :: 0 <= i < |ts| && ts[i].Placeholder? ==> ts[i].name != ""
    ensures Filled(AsHoles(ts, Elements(names), title), params, params.Keys) == FilledIn(ts, title, params)
  {
  }
}
