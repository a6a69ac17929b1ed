/** `HeaderFooterManager`: which configured lines a player sees above and
    below the player list, how they are joined into one component, and the
    per-player cache. */
module HeaderFooter {
  import opened Wrappers
  import opened Host
  import opened Condition

  // ---------------------------------------------------------------------
  // Configuration (as `HeaderFooterConfig` reads it)
  // ---------------------------------------------------------------------

  /** One entry of `worlds`, `groups` or `players`; the lists are never null. */
  datatype LayerData = LayerData(header: seq<string>, footer: seq<string>, priority: int)

  /** One entry of `conditions`; its condition may be absent (null). */
  datatype Conditional = Conditional(condition: Option<string>, data: LayerData)

  datatype Config = Config(
    globalHeader: seq<string>,
    globalFooter: seq<string>,
    worlds: map<string, LayerData>,
    groups: map<string, LayerData>,
    players: map<string, LayerData>,
    conditionals: seq<Conditional>)

  /** `getHeader` and `getFooter` are the same lookup on different lists. */
  datatype Part = HeaderPart | FooterPart

  function Lines(d: LayerData, part: Part): seq<string> {
    match part
    case HeaderPart => d.header
    case FooterPart => d.footer
  }

  function Global(config: Config, part: Part): seq<string> {
    match part
    case HeaderPart => config.globalHeader
    case FooterPart => config.globalFooter
  }

  // ---------------------------------------------------------------------
  // getHeader / getFooter
  // ---------------------------------------------------------------------

  /** The lines of a map layer when the key is present and they are not empty. */
  function FromLayer(layer: map<string, LayerData>, key: string, part: Part): (r: Option<seq<string>>)
    ensures r.Some? <==> key in layer && Lines(layer[key], part) != []
    ensures r.Some? ==> r.value == Lines(layer[key], part)
  {
    if key in layer && Lines(layer[key], part) != [] then Some(Lines(layer[key], part)) else None
  }

  /** This conditional applies: its condition holds (`holds` is the
      evaluator) and its lines are not empty. */
  predicate Applies(c: Conditional, part: Part, holds: Option<string> -> bool) {
    holds(c.condition) && Lines(c.data, part) != []
  }

  /** `ConditionUtil.evaluate(condition, player)`: the condition evaluator
      under this player's PlaceholderAPI. */
  function Evaluator(papi: string -> string, num: string -> Option<real>): Option<string> -> bool {
    c => Evaluate(c, papi, num)
  }

  /** The conditional layer: the first entry in list order that applies. */
  function FirstConditional(cs: seq<Conditional>, part: Part, holds: Option<string> -> bool)
    : (r: Option<nat>)
    ensures r.None? <==> forall i :: 0 <= i < |cs| ==> !Applies(cs[i], part, holds)
    ensures r.Some? ==> r.value < |cs| && Applies(cs[r.value], part, holds)
    ensures r.Some? ==> forall i :: 0 <= i < r.value ==> !Applies(cs[i], part, holds)
  {
    FirstConditionalFrom(cs, part, holds, 0)
  }

  /** The loop over the conditionals from position `j` on. */
  function FirstConditionalFrom(cs: seq<Conditional>, part: Part, holds: Option<string> -> bool, j: nat)
    : (r: Option<nat>)
    requires j <= |cs|
    ensures r.None? <==> forall i :: j <= i < |cs| ==> !Applies(cs[i], part, holds)
    ensures r.Some? ==> j <= r.value < |cs| && Applies(cs[r.value], part, holds)
    ensures r.Some? ==> forall i :: j <= i < r.value ==> !Applies(cs[i], part, holds)
    decreases |cs| - j
  {
    if j == |cs| then None
    else if Applies(cs[j], part, holds) then Some(j)
    else FirstConditionalFrom(cs, part, holds, j + 1)
  }

  /** `getHeader` (`part == HeaderPart`) and `getFooter`: the player's own
      entry, then the conditionals, then the primary group `group`, then the
      world `world`, then the global lines. `papi` is PlaceholderAPI for this
      player, used by the condition evaluation. */
  function Resolve(config: Config, part: Part, player: Player, group: string, world: string,
                   papi: string -> string, num: string -> Option<real>): (r: seq<string>)
    ensures r == [] ==> Global(config, part) == []
  {
    match FromLayer(config.players, player.uuid, part)
    case Some(lines) => lines
    case None =>
      match FirstConditional(config.conditionals, part, Evaluator(papi, num))
      case Some(i) => Lines(config.conditionals[i].data, part)
      case None =>
        match FromLayer(config.groups, group, part)
        case Some(lines) => lines
        case None =>
          match FromLayer(config.worlds, world, part)
          case Some(lines) => lines
          case None => Global(config, part)
  }

  /** A player entry with lines for this part wins over every other layer. */
  lemma PlayerEntryWins(config: Config, part: Part, player: Player, group: string, world: string,
                        papi: string -> string, num: string -> Option<real>)
    requires player.uuid in config.players && Lines(config.players[player.uuid], part) != []
    ensures Resolve(config, part, player, group, world, papi, num) == Lines(config.players[player.uuid], part)
  {
  }

  /** Without a player entry, the first applying conditional in list order
      decides, whatever the later conditionals, the group and the world. */
  lemma FirstApplyingConditionalWins(config: Config, part: Part, player: Player, group: string, world: string,
                                     papi: string -> string, num: string -> Option<real>, i: nat)
    requires FromLayer(config.players, player.uuid, part).None?
    requires i < |config.conditionals| && Applies(config.conditionals[i], part, Evaluator(papi, num))
    requires forall j :: 0 <= j < i ==> !Applies(config.conditionals[j], part, Evaluator(papi, num))
    ensures Resolve(config, part, player, group, world, papi, num) == Lines(config.conditionals[i].data, part)
  {
    var f := FirstConditional(config.conditionals, part, Evaluator(papi, num));
    assert f.Some? by {
      assert Applies(config.conditionals[i], part, Evaluator(papi, num));
    }
    assert f.value == i;
  }

  /** After the conditionals the order is group, world, global; a missing
      entry or an empty list at a layer defers to the next. */
  lemma FallbackOrder(config: Config, part: Part, player: Player, group: string, world: string,
                      papi: string -> string, num: string -> Option<real>)
    requires FromLayer(config.players, player.uuid, part).None?
    requires FirstConditional(config.conditionals, part, Evaluator(papi, num)).None?
    ensures Resolve(config, part, player, group, world, papi, num) ==
      if group in config.groups && Lines(config.groups[group], part) != [] then Lines(config.groups[group], part)
      else if world in config.worlds && Lines(config.worlds[world], part) != [] then Lines(config.worlds[world], part)
      else Global(config, part)
  {
  }

  /** The `priority` of a conditional is never read: giving the entries other
      priorities changes nothing. */
  lemma ConditionalPriorityIgnored(config: Config, priorities: seq<int>, part: Part, player: Player, group: string,
                                   world: string, papi: string -> string, num: string -> Option<real>)
    requires |priorities| == |config.conditionals|
    ensures var cs := seq(|priorities|, i requires 0 <= i < |priorities| && |priorities| == |config.conditionals| =>
                            config.conditionals[i].(data := config.conditionals[i].data.(priority := priorities[i])));
            Resolve(config.(conditionals := cs), part, player, group, world, papi, num)
            == Resolve(config, part, player, group, world, papi, num)
  {
    var cs := seq(|priorities|, i requires 0 <= i < |priorities| && |priorities| == |config.conditionals| =>
                    config.conditionals[i].(data := config.conditionals[i].data.(priority := priorities[i])));
    SameLinesSameChoice(cs, config.conditionals, part, Evaluator(papi, num));
  }

  /** Two conditional lists with the same conditions and lines choose the
      same position. */
  lemma SameLinesSameChoice(a: seq<Conditional>, b: seq<Conditional>, part: Part, holds: Option<string> -> bool)
    requires |a| == |b|
    requires forall i :: 0 <= i < |a| ==> a[i].condition == b[i].condition && Lines(a[i].data, part) == Lines(b[i].data, part)
    ensures FirstConditional(a, part, holds) == FirstConditional(b, part, holds)
  {
    SameLinesSameChoiceFrom(a, b, part, holds, 0);
  }

  lemma {:induction false} SameLinesSameChoiceFrom(a: seq<Conditional>, b: seq<Conditional>, part: Part,
                                                   holds: Option<string> -> bool, j: nat)
    requires |a| == |b| && j <= |a|
    requires forall i :: 0 <= i < |a| ==> a[i].condition == b[i].condition && Lines(a[i].data, part) == Lines(b[i].data, part)
    ensures FirstConditionalFrom(a, part, holds, j) == FirstConditionalFrom(b, part, holds, j)
    decreases |a| - j
  {
    if j < |a| {
      var x, y := a[j], b[j];
      assert x.condition == y.condition && Lines(x.data, part) == Lines(y.data, part);
      if !Applies(x, part, holds) {
        SameLinesSameChoiceFrom(a, b, part, holds, j + 1);
      }
    }
  }

  /** The header and the footer are looked up independently, so they may
      come from different layers: a player entry with a header but no footer
      gets that header and the global footer. */
  lemma HeaderAndFooterFromDifferentLayers(header: seq<string>, globalFooter: seq<string>, player: Player, group: string,
                                           world: string, papi: string -> string, num: string -> Option<real>)
    requires header != []
    ensures var config := Config([], globalFooter, map[], map[], map[player.uuid := LayerData(header, [], 20)], []);
            Resolve(config, HeaderPart, player, group, world, papi, num) == header
            && Resolve(config, FooterPart, player, group, world, papi, num) == globalFooter
  {
  }

  // ---------------------------------------------------------------------
  // parseLines
  // ---------------------------------------------------------------------

  /** A child of an Adventure component: a parsed line, recorded by the
      MiniMessage text it was parsed from, or a newline. */
  datatype Node = Parsed(source: string) | Newline

  /** A component, as the list of its children; `Component.empty()` is `[]`. */
  type Component = seq<Node>

  /** The lines joined into one component: each line after PlaceholderAPI,
      with a newline before every line but the first. */
  function Joined(ls: seq<string>, papi: string -> string): (r: Component)
    ensures |r| == if ls == [] then 0 else 2 * |ls| - 1
    decreases |ls|
  {
    if ls == [] then []
    else if |ls| == 1 then [Parsed(papi(ls[0]))]
    else Joined(ls[..|ls| - 1], papi) + [Newline, Parsed(papi(ls[|ls| - 1]))]
  }

  /** The joined component has line `i` at position `2i`, exactly one
      newline between consecutive lines, and none after the last. */
  lemma {:induction false} JoinedShape(ls: seq<string>, papi: string -> string)
    ensures ls != [] ==> |Joined(ls, papi)| == 2 * |ls| - 1
    ensures forall i :: 0 <= i < |ls| ==> Joined(ls, papi)[2 * i] == Parsed(papi(ls[i]))
    ensures forall i :: 0 <= i < |ls| - 1 ==> Joined(ls, papi)[2 * i + 1] == Newline
    decreases |ls|
  {
    if |ls| > 1 {
      var init := ls[..|ls| - 1];
      JoinedShape(init, papi);
      assert forall i :: 0 <= i < |init| ==> init[i] == ls[i];
    }
  }

  /** `parseLines(player, lines)`: the lines joined; a null or empty list
      gives the empty component. */
  method ParseLines(lines: Option<seq<string>>, papi: string -> string) returns (r: Component)
    ensures lines.None? ==> r == []
    ensures lines.Some? ==> r == Joined(lines.value, papi)
  {
    if lines.None? || lines.value == [] {
      return [];
    }
    var ls := lines.value;
    r := [];
    var i := 0;
    while i < |ls|
      invariant 0 <= i <= |ls|
      invariant r == Joined(ls[..i], papi) + (if 0 < i < |ls| then [Newline] else [])
    {
      assert ls[..i + 1][..i] == ls[..i];
      r := r + [Parsed(papi(ls[i]))];
      if i < |ls| - 1 {
        r := r + [Newline];
      }
      i := i + 1;
    }
    assert ls[..i] == ls;
  }

  // ---------------------------------------------------------------------
  // The manager's cache
  // ---------------------------------------------------------------------

  class HeaderFooterManager {
    /** The last header and footer sent to each player, by UUID. */
    var cache: map<string, (Component, Component)>

    constructor()
      ensures cache == map[]
    {
      cache := map[];
    }

    /** `updateHeaderFooter`: resolves both parts, joins them and caches the
        pair; the pair is what is sent. */
    method UpdateHeaderFooter(config: Config, player: Player, group: string, world: string,
                              papi: string -> string, num: string -> Option<real>)
      returns (sent: (Component, Component))
      modifies this
      ensures sent == (Joined(Resolve(config, HeaderPart, player, group, world, papi, num), papi),
                       Joined(Resolve(config, FooterPart, player, group, world, papi, num), papi))
      ensures cache == old(cache)[player.uuid := sent]
    {
      var header := Resolve(config, HeaderPart, player, group, world, papi, num);
      var footer := Resolve(config, FooterPart, player, group, world, papi, num);
      var h := ParseLines(Some(header), papi);
      var f := ParseLines(Some(footer), papi);
      sent := (h, f);
      cache := cache[player.uuid := sent];
    }

    /** `setHeader`: the new header with the cached footer (empty if none);
        the pair is sent and cached. */
    method SetHeader(player: Player, header: string, papi: string -> string) returns (sent: (Component, Component))
      modifies this
      ensures sent == ([Parsed(papi(header))], if player.uuid in old(cache) then old(cache)[player.uuid].1 else [])
      ensures cache == old(cache)[player.uuid := sent]
    {
      var component := [Parsed(papi(header))];
      var footer := if player.uuid in cache then cache[player.uuid].1 else [];
      sent := (component, footer);
      cache := cache[player.uuid := sent];
    }

    /** `setFooter`: the cached header (empty if none) with the new footer. */
    method SetFooter(player: Player, footer: string, papi: string -> string) returns (sent: (Component, Component))
      modifies this
      ensures sent == (if player.uuid in old(cache) then old(cache)[player.uuid].0 else [], [Parsed(papi(footer))])
      ensures cache == old(cache)[player.uuid := sent]
    {
      var component := [Parsed(papi(footer))];
      var header := if player.uuid in cache then cache[player.uuid].0 else [];
      sent := (header, component);
      cache := cache[player.uuid := sent];
    }

    /** `reload`: the cache is emptied (the update task is restarted). */
    method Reload()
      modifies this
      ensures cache == map[]
    {
      cache := map[];
    }

    /** `shutdown`: the cache is emptied. */
    method Shutdown()
      modifies this
      ensures cache == map[]
    {
      cache := map[];
    }
  }

  /** Setting the header keeps the footer a later `setFooter` would pair it
      with: header and footer are cached independently. */
  method SetHeaderThenFooter(m: HeaderFooterManager, player: Player, header: string, footer: string, papi: string -> string)
    returns (sent: (Component, Component))
    modifies m
    ensures sent == ([Parsed(papi(header))], [Parsed(papi(footer))])
    ensures m.cache == old(m.cache)[player.uuid := sent]
  {
    var _ := m.SetHeader(player, header, papi);
    sent := m.SetFooter(player, footer, papi);
  }
}
