/** From a sequential placeholder in a URL pattern to the generated path: the checks of the configuration
    (config/config.go), the list of parameters to copy and the run of the merger (proxy/merging.go), and
    the filling of the path (proxy/request.go), taken together. */
module SequentialTemplate {
  import opened Options
  import opened JsonTree
  import opened Permutations
  import opened Merging
  import opened PathTemplate
  import opened UrlMappings
  import opened SequentialRun
  import opened SequentialLedger
  import opened SequentialLog
  import opened SequentialConfig

  /** The placeholder for a value of an earlier response, as written in a URL pattern: `resp`, the backend's
      number and the path, in lower case. */
  function PlaceholderName(m: Match): string {
    "resp" + m.digits + (if m.tail == "" then "" else "_" + m.tail)
  }

  /** Title case makes its key the parameter into which the merger puts that value; so does writing it with
      the capital. */
  lemma PlaceholderKey(m: Match, title: string -> string)
    ensures PlaceholderName(m) != ""
    ensures title("r") == "R" ==> KeyOf(PlaceholderName(m), title) == DestKey(m)
    ensures title("R") == "R" ==> KeyOf("R" + PlaceholderName(m)[1..], title) == DestKey(m)
  {
    var rest := "esp" + m.digits + (if m.tail == "" then "" else "_" + m.tail);
    assert PlaceholderName(m) == "r" + rest && DestKey(m) == "R" + rest;
    assert ("r" + rest)[..1] == "r" && ("r" + rest)[1..] == rest;
    assert ("R" + rest)[..1] == "R" && ("R" + rest)[1..] == rest;
  }

  /** Another name, in which title case changes the first byte only. */
  lemma TitledKey(title: string -> string)
    requires title("i") == "I"
    ensures KeyOf("id", title) == "Id"
  {
    assert "id"[..1] == "i" && "id"[1..] == "d" && "I" + "d" == "Id";
  }

  /** A URL pattern as configured, and the names found in it. */
  datatype Pattern = Pattern(tokens: seq<Token>, names: seq<string>)

  ghost predicate Configurable(p: Pattern, title: string -> string) {
    && AllWellFormed(p.tokens) && NamesOf(p.tokens, p.names) && AllPlain(p.names, title)
    && SpellsNoHole(p.tokens, p.names, title)
  }

  /** The path generated from a pattern that the configuration has rewritten. */
  function PathOf(p: Pattern, title: string -> string, params: Params, order: seq<string>): string
    requires AllPlain(p.names, title) && Elements(order) <= params.Keys
  {
    ReplaceInOrder(Rewritten(RenderAll(p.tokens), p.names, title), params, order)
  }

  /** What the value of an existing path of an earlier response has to satisfy to arrive: the match stands for
      it, and its top-level key is shielded up to the first turn that lists it, or to a later one that is not
      after i; up to i itself, if its rendering is empty. */
  ghost predicate Arrives(setup: Setup, events: seq<Event>, i: nat, m: Match)
    requires i < |events| <= |setup.orders.next| == |setup.orders.given|
  {
    var j, source := NumberOf(m.digits), Split(m.tail, '.');
    && m.tail != "" && j <= MAX_INT && j < i
    && Meaning(m, None).Some? && ShieldedOnceListed(setup, events, i, Meaning(m, None).value)
    && var v := Get(Obj(Delivered(setup, events, j)), source);
       v.Some? && (Rendered(v.value, setup.show) != "" || Shielded(events[..i], j, source[0]))
  }

  function Arriving(setup: Setup, events: seq<Event>, m: Match): string
    requires NumberOf(m.digits) < |events| <= |setup.orders.next| == |setup.orders.given|
    requires Get(Obj(Delivered(setup, events, NumberOf(m.digits))), Split(m.tail, '.')).Some?
  {
    Rendered(ArrivingValue(setup, events, m), setup.show)
  }

  /** What backend j delivered at the path that the match names. */
  function ArrivingValue(setup: Setup, events: seq<Event>, m: Match): Json
    requires NumberOf(m.digits) < |events| <= |setup.orders.next| == |setup.orders.given|
    requires Get(Obj(Delivered(setup, events, NumberOf(m.digits))), Split(m.tail, '.')).Some?
  {
    Get(Obj(Delivered(setup, events, NumberOf(m.digits))), Split(m.tail, '.')).value
  }

  /** The parameter that a match in backend i's pattern names has the value when the backend's turn comes. */
  lemma MatchArrives(
    setup: Setup, events: seq<Event>, invocations: seq<nat>, registry: Params, captures: seq<Capture>,
    urls: seq<seq<Match>>, propagated: seq<seq<Match>>, i: nat, m: Match)
    requires LogOk(setup, events, invocations, registry, captures) && setup.orders.unshared && GivenFits(setup.orders)
    requires |setup.replacements| == |urls| == |setup.orders.next|
    requires forall k :: 0 <= k < |urls| ==> setup.replacements[k] == Listed(urls, propagated, k)
    requires i < |events| && m in urls[i] && Arrives(setup, events, i, m)
    ensures DestKey(m) in SeenParams(events[i]) && SeenParams(events[i])[DestKey(m)] == Arriving(setup, events, m)
  {
    ConfigurationIsSound(urls, propagated, setup.replacements);
    var r := Meaning(m, None).value;
    MeaningsOf(urls[i], None, r);
    assert r in setup.replacements[i];
    OwnValueArrives(setup, events, invocations, registry, captures, i, r);
  }

  /** End to end: where backend i's pattern, as configured, has a placeholder for a value of an earlier
      response, the path generated at its turn has the rendering of the value that the earlier backend
      delivered; every other placeholder has the value of its key. For every order in which names and
      parameters are taken. */
  lemma {:induction false} SequentialPlaceholder(
    setup: Setup, events: seq<Event>, invocations: seq<nat>, registry: Params, captures: seq<Capture>,
    urls: seq<seq<Match>>, propagated: seq<seq<Match>>, i: nat, m: Match,
    p: Pattern, title: string -> string, order: seq<string>, k: nat)
    requires LogOk(setup, events, invocations, registry, captures) && setup.orders.unshared && GivenFits(setup.orders)
    requires |setup.replacements| == |urls| == |setup.orders.next|
    requires forall l :: 0 <= l < |urls| ==> setup.replacements[l] == Listed(urls, propagated, l)
    requires i < |events| && m in urls[i] && Arrives(setup, events, i, m)
    requires Configurable(p, title) && Enumerates(order, SeenParams(events[i]).Keys)
    requires KeysStandAlone(SeenParams(events[i]))
      && FillsCleanly(Configured(p.tokens, p.names, title), SeenParams(events[i]), order)
    requires k < |p.tokens| && p.tokens[k].Placeholder? && p.tokens[k].name != ""
      && KeyOf(p.tokens[k].name, title) == DestKey(m)
    ensures forall l :: 0 <= l < |p.tokens| && p.tokens[l].Placeholder? ==> p.tokens[l].name != ""
    ensures PathOf(p, title, SeenParams(events[i]), order) ==
      RenderAll(FilledIn(p.tokens, title, SeenParams(events[i])))
    ensures FilledIn(p.tokens, title, SeenParams(events[i]))[k] == Lit(Arriving(setup, events, m))
    ensures IsTextOf(Arriving(setup, events, m), ArrivingValue(setup, events, m), setup.show)
  {
    RenderedIsText(ArrivingValue(setup, events, m), setup.show);
    TemplateEndToEnd(p.tokens, p.names, title, SeenParams(events[i]), order);
    MatchArrives(setup, events, invocations, registry, captures, urls, propagated, i, m);
  }
}
