/** `BossbarManager`: the colour and style of each configured bar, when a
    bar is shown to a player, and the per-player record of shown bars. */
module Bossbar {
  import opened Wrappers
  import opened Strings
  import opened Host
  import opened Condition

  /** `BossBar.Color`. */
  datatype BarColor = Pink | Blue | Red | Green | Yellow | Purple | White

  function ColorName(c: BarColor): string {
    match c
    case Pink => "PINK"
    case Blue => "BLUE"
    case Red => "RED"
    case Green => "GREEN"
    case Yellow => "YELLOW"
    case Purple => "PURPLE"
    case White => "WHITE"
  }

  /** `getBossbarColor`: `Color.valueOf(color.toUpperCase())`, or `GREEN`
      when no constant has that name. */
  function ColorOf(name: string): (c: BarColor)
    ensures c != Green ==> ToUpper(name) == ColorName(c)
  {
    var u := ToUpper(name);
    if u == "PINK" then Pink
    else if u == "BLUE" then Blue
    else if u == "RED" then Red
    else if u == "YELLOW" then Yellow
    else if u == "PURPLE" then Purple
    else if u == "WHITE" then White
    else Green
  }

  /** Every colour is found by its name in any case, and a name that is no
      colour's falls back to `GREEN`. */
  lemma ColorOfName(c: BarColor)
    ensures ColorOf(ColorName(c)) == c
    ensures ColorOf(ToLower(ColorName(c))) == c
  {
    UpperOfUpperText(ColorName(c));
    UpperOfLowerText(ColorName(c));
  }

  lemma ColorFallback(s: string)
    requires forall d :: ToUpper(s) != ColorName(d)
    ensures ColorOf(s) == Green
  {
    assert ToUpper(s) != ColorName(Pink) && ToUpper(s) != ColorName(Blue) && ToUpper(s) != ColorName(Red);
    assert ToUpper(s) != ColorName(Yellow) && ToUpper(s) != ColorName(Purple) && ToUpper(s) != ColorName(White);
  }

  /** `BossBar.Overlay`. */
  datatype Overlay = Progress | Notched6 | Notched10 | Notched12 | Notched20

  /** The configured style that selects an overlay (`SOLID`, the default,
      for the plain bar). */
  function StyleName(o: Overlay): string {
    match o
    case Progress => "SOLID"
    case Notched6 => "SEGMENTED_6"
    case Notched10 => "SEGMENTED_10"
    case Notched12 => "SEGMENTED_12"
    case Notched20 => "SEGMENTED_20"
  }

  /** `getBossbarOverlay`: the `SEGMENTED_n` styles in any case, everything
      else the plain bar. */
  function OverlayOf(style: string): (o: Overlay)
    ensures o != Progress ==> ToUpper(style) == StyleName(o)
  {
    var u := ToUpper(style);
    if u == "SEGMENTED_6" then Notched6
    else if u == "SEGMENTED_10" then Notched10
    else if u == "SEGMENTED_12" then Notched12
    else if u == "SEGMENTED_20" then Notched20
    else Progress
  }

  /** Every overlay is selected by its style name in any case; any style that
      is not a segmented one gives the plain bar. */
  lemma OverlayOfStyle(o: Overlay)
    ensures OverlayOf(StyleName(o)) == o
    ensures OverlayOf(ToLower(StyleName(o))) == o
  {
    UpperOfUpperText(StyleName(o));
    UpperOfLowerText(StyleName(o));
  }

  lemma OverlayFallback(s: string)
    requires forall d :: d != Progress ==> ToUpper(s) != StyleName(d)
    ensures OverlayOf(s) == Progress
  {
    assert ToUpper(s) != StyleName(Notched6) && ToUpper(s) != StyleName(Notched10);
    assert ToUpper(s) != StyleName(Notched12) && ToUpper(s) != StyleName(Notched20);
  }

  /** One entry of `bossbars` (missing keys take their defaults). */
  datatype BossbarData = BossbarData(text: string, progress: string, color: string, style: string,
                                     conditions: seq<string>, refresh: int, duration: int)

  /** The bar `loadBossbars` builds: full progress, the mapped colour and overlay. */
  datatype Bar = Bar(text: string, color: BarColor, overlay: Overlay)

  function BarOf(d: BossbarData): Bar {
    Bar(d.text, ColorOf(d.color), OverlayOf(d.style))
  }

  /** `loadBossbars`: one bar per configured id. */
  function LoadBars(config: map<string, BossbarData>): (bars: map<string, Bar>)
    ensures bars.Keys == config.Keys
    ensures forall id :: id in config ==> bars[id] == BarOf(config[id])
  {
    map id | id in config :: BarOf(config[id])
  }

  /** The player `u` is recorded as seeing bar `id`. */
  predicate Has(pb: map<string, set<string>>, u: string, id: string) {
    u in pb && id in pb[u]
  }

  /** The configured bar `entry` is shown to the player: `evaluateAll` of its
      conditions, so a bar without conditions is always shown. */
  predicate Wanted(entry: (string, BossbarData), papi: string -> string, num: string -> Option<real>) {
    EvaluateAll(Some(entry.1.conditions), papi, num)
  }

  predicate DistinctIds(entries: seq<(string, BossbarData)>) {
    forall i, j :: 0 <= i < j < |entries| ==> entries[i].0 != entries[j].0
  }

  /** The player `u` sees bar `id` and has it recorded exactly when `want`. */
  predicate Shows(vis: set<(string, string)>, pb: map<string, set<string>>, u: string, id: string, want: bool) {
    ((u, id) in vis <==> want) && (Has(pb, u, id) <==> want)
  }

  /** Nothing about player `v` and bar `x` differs between two states. */
  ghost predicate Same(vis: set<(string, string)>, pb: map<string, set<string>>,
                 vis0: set<(string, string)>, pb0: map<string, set<string>>, v: string, x: string) {
    ((v, x) in vis <==> (v, x) in vis0) && (Has(pb, v, x) <==> Has(pb0, v, x))
  }

  /** Bar `x` is not among the loaded bars the first `k` entries name. */
  predicate Untouched(entries: seq<(string, BossbarData)>, k: nat, bars: map<string, Bar>, x: string) {
    x !in bars || forall j :: 0 <= j < k && j < |entries| ==> entries[j].0 != x
  }

  /** After the first `k` entries: each loaded one is shown iff wanted. */
  predicate Reflects(vis: set<(string, string)>, pb: map<string, set<string>>, u: string,
                     entries: seq<(string, BossbarData)>, k: nat, bars: map<string, Bar>,
                     papi: string -> string, num: string -> Option<real>) {
    forall j :: 0 <= j < k && j < |entries| && entries[j].0 in bars ==> Shows(vis, pb, u, entries[j].0, Wanted(entries[j], papi, num))
  }

  /** After the first `k` entries: everything else is as it was. */
  ghost predicate Outside(vis: set<(string, string)>, pb: map<string, set<string>>,
                    vis0: set<(string, string)>, pb0: map<string, set<string>>, u: string,
                    entries: seq<(string, BossbarData)>, k: nat, bars: map<string, Bar>) {
    forall v, x :: (v != u || Untouched(entries, k, bars, x)) ==> Same(vis, pb, vis0, pb0, v, x)
  }

  /** One step of the `updateBossbars` loop keeps both facts. */
  lemma UpdateStep(vis0: set<(string, string)>, pb0: map<string, set<string>>,
                   vis1: set<(string, string)>, pb1: map<string, set<string>>,
                   vis2: set<(string, string)>, pb2: map<string, set<string>>, u: string,
                   entries: seq<(string, BossbarData)>, k: nat, bars: map<string, Bar>,
                   papi: string -> string, num: string -> Option<real>)
    requires DistinctIds(entries) && k < |entries|
    requires Reflects(vis1, pb1, u, entries, k, bars, papi, num)
    requires Outside(vis1, pb1, vis0, pb0, u, entries, k, bars)
    requires entries[k].0 in bars ==> Shows(vis2, pb2, u, entries[k].0, Wanted(entries[k], papi, num))
    requires forall v, x :: (v != u || x != entries[k].0 || entries[k].0 !in bars) ==> Same(vis2, pb2, vis1, pb1, v, x)
    ensures Reflects(vis2, pb2, u, entries, k + 1, bars, papi, num)
    ensures Outside(vis2, pb2, vis0, pb0, u, entries, k + 1, bars)
  {
    forall j | 0 <= j < k + 1 && j < |entries| && entries[j].0 in bars
      ensures Shows(vis2, pb2, u, entries[j].0, Wanted(entries[j], papi, num))
    {
      if j < k {
        assert Same(vis2, pb2, vis1, pb1, u, entries[j].0);
      }
    }
    forall v, x | v != u || Untouched(entries, k + 1, bars, x)
      ensures Same(vis2, pb2, vis0, pb0, v, x)
    {
      assert Same(vis2, pb2, vis1, pb1, v, x);
      assert Same(vis1, pb1, vis0, pb0, v, x);
    }
  }

  /** The bossbar state: the loaded bars, the ids recorded per player UUID,
      and the (player, bar) pairs the players' clients display. */
  class BossbarManager {
    var bossbars: map<string, Bar>
    var playerBossbars: map<string, set<string>>
    var visible: set<(string, string)>

    constructor (config: map<string, BossbarData>)
      ensures bossbars == LoadBars(config) && playerBossbars == map[] && visible == {}
    {
      bossbars := LoadBars(config);
      playerBossbars := map[];
      visible := {};
    }

    /** `showBossbar`: an unknown id does nothing; otherwise the bar is
        displayed and added to the player's set (created when missing). */
    method ShowBossbar(p: Player, id: string)
      modifies this`playerBossbars, this`visible
      ensures id !in bossbars ==> playerBossbars == old(playerBossbars) && visible == old(visible)
      ensures id in bossbars ==>
        visible == old(visible) + {(p.uuid, id)} &&
        playerBossbars == old(playerBossbars)[p.uuid := (if p.uuid in old(playerBossbars) then old(playerBossbars)[p.uuid] else {}) + {id}]
    {
      if id !in bossbars {
        return;
      }
      visible := visible + {(p.uuid, id)};
      var bars := if p.uuid in playerBossbars then playerBossbars[p.uuid] else {};
      playerBossbars := playerBossbars[p.uuid := bars + {id}];
    }

    /** `hideBossbar`: an unknown id does nothing; otherwise the bar is taken
        down and removed from the player's set if the player has one. */
    method HideBossbar(p: Player, id: string)
      modifies this`playerBossbars, this`visible
      ensures id !in bossbars ==> playerBossbars == old(playerBossbars) && visible == old(visible)
      ensures id in bossbars ==>
        visible == old(visible) - {(p.uuid, id)} &&
        playerBossbars == (if p.uuid in old(playerBossbars) then old(playerBossbars)[p.uuid := old(playerBossbars)[p.uuid] - {id}] else old(playerBossbars))
    {
      if id !in bossbars {
        return;
      }
      visible := visible - {(p.uuid, id)};
      if p.uuid in playerBossbars {
        playerBossbars := playerBossbars[p.uuid := playerBossbars[p.uuid] - {id}];
      }
    }

    /** One step of `updateBossbars`: show the bar when `want`, else hide
        it. Only the pair (player, `id`) can change. */
    method SetShown(p: Player, id: string, want: bool)
      modifies this`playerBossbars, this`visible
      ensures id in bossbars ==> Shows(visible, playerBossbars, p.uuid, id, want)
      ensures forall v, x :: (v != p.uuid || x != id || id !in bossbars) ==>
        Same(visible, playerBossbars, old(visible), old(playerBossbars), v, x)
    {
      if want {
        ShowBossbar(p, id);
      } else {
        HideBossbar(p, id);
      }
    }

    /** `updateBossbars`: nothing when the player's toggle (`enabled`) is
        off; otherwise every configured bar, in the configuration's order, is
        shown if its conditions hold and hidden if not. Bars that are not
        configured, and other players, are left alone. */
    method UpdateBossbars(p: Player, enabled: bool, entries: seq<(string, BossbarData)>,
                          papi: string -> string, num: string -> Option<real>)
      requires DistinctIds(entries)
      modifies this`playerBossbars, this`visible
      ensures !enabled ==> playerBossbars == old(playerBossbars) && visible == old(visible)
      ensures enabled ==> Reflects(visible, playerBossbars, p.uuid, entries, |entries|, bossbars, papi, num)
      ensures Outside(visible, playerBossbars, old(visible), old(playerBossbars), p.uuid, entries, |entries|, bossbars)
    {
      if !enabled {
        return;
      }
      var i := 0;
      while i < |entries|
        invariant 0 <= i <= |entries|
        invariant Reflects(visible, playerBossbars, p.uuid, entries, i, bossbars, papi, num)
        invariant Outside(visible, playerBossbars, old(visible), old(playerBossbars), p.uuid, entries, i, bossbars)
      {
        var vis1, pb1 := visible, playerBossbars;
        SetShown(p, entries[i].0, Wanted(entries[i], papi, num));
        UpdateStep(old(visible), old(playerBossbars), vis1, pb1, visible, playerBossbars, p.uuid, entries, i, bossbars, papi, num);
        i := i + 1;
      }
    }

    /** Every bar recorded for the player is hidden (the loop over a copy of
        the set in `toggleBossbar`, and over the set in `shutdown`). Ids no
        longer loaded stay recorded, since hiding them does nothing. */
    method HideAll(p: Player)
      modifies this`playerBossbars, this`visible
      ensures forall x :: Has(old(playerBossbars), p.uuid, x) && x in bossbars ==> (p.uuid, x) !in visible
      ensures forall x :: Has(playerBossbars, p.uuid, x) <==> Has(old(playerBossbars), p.uuid, x) && x !in bossbars
      ensures forall x :: !(Has(old(playerBossbars), p.uuid, x) && x in bossbars) ==> ((p.uuid, x) in visible <==> (p.uuid, x) in old(visible))
      ensures forall v, x :: v != p.uuid ==>
        ((v, x) in visible <==> (v, x) in old(visible)) && (Has(playerBossbars, v, x) <==> Has(old(playerBossbars), v, x))
    {
      if p.uuid !in playerBossbars {
        return;
      }
      var rest := playerBossbars[p.uuid];
      ghost var all := rest;
      while rest != {}
        invariant rest <= all
        invariant forall x :: x in all - rest && x in bossbars ==> (p.uuid, x) !in visible
        invariant forall x :: Has(playerBossbars, p.uuid, x) <==> x in all && (x in rest || x !in bossbars)
        invariant forall x :: !(x in all - rest && x in bossbars) ==> ((p.uuid, x) in visible <==> (p.uuid, x) in old(visible))
        invariant forall v, x :: v != p.uuid ==>
          ((v, x) in visible <==> (v, x) in old(visible)) && (Has(playerBossbars, v, x) <==> Has(old(playerBossbars), v, x))
        decreases |rest|
      {
        var id :| id in rest;
        HideBossbar(p, id);
        rest := rest - {id};
      }
    }

    /** `toggleBossbar`: the stored toggle is flipped (the new value is
        returned for saving); off hides every recorded bar, on runs
        `updateBossbars`. Other players, and bars the branch does not
        touch, keep their state. */
    method ToggleBossbar(p: Player, stored: bool, entries: seq<(string, BossbarData)>,
                         papi: string -> string, num: string -> Option<real>) returns (enabled: bool)
      requires DistinctIds(entries)
      modifies this`playerBossbars, this`visible
      ensures enabled == !stored
      ensures !enabled ==> forall x :: Has(old(playerBossbars), p.uuid, x) && x in bossbars ==>
        (p.uuid, x) !in visible && !Has(playerBossbars, p.uuid, x)
      ensures !enabled ==> forall x :: !(Has(old(playerBossbars), p.uuid, x) && x in bossbars) ==>
        Same(visible, playerBossbars, old(visible), old(playerBossbars), p.uuid, x)
      ensures enabled ==> Reflects(visible, playerBossbars, p.uuid, entries, |entries|, bossbars, papi, num)
      ensures enabled ==> Outside(visible, playerBossbars, old(visible), old(playerBossbars), p.uuid, entries, |entries|, bossbars)
      ensures !enabled ==> forall v, x :: v != p.uuid ==> Same(visible, playerBossbars, old(visible), old(playerBossbars), v, x)
    {
      enabled := !stored;
      if !enabled {
        HideAll(p);
      } else {
        UpdateBossbars(p, enabled, entries, papi, num);
      }
    }

    /** `reload`: the bars rebuilt from the configuration and every record
        dropped. */
    method Reload(config: map<string, BossbarData>)
      modifies this`bossbars, this`playerBossbars
      ensures bossbars == LoadBars(config) && playerBossbars == map[]
    {
      bossbars := map[];
      playerBossbars := map[];
      bossbars := bossbars + LoadBars(config);
    }

    /** `shutdown`: every online player's recorded bars hidden, then both
        maps cleared. Every other (player, bar) pair keeps its visibility. */
    method Shutdown(online: seq<Player>)
      modifies this`bossbars, this`playerBossbars, this`visible
      ensures bossbars == map[] && playerBossbars == map[]
      ensures forall v, x :: v in Uuids(online) && Has(old(playerBossbars), v, x) && x in old(bossbars) ==>
        (v, x) !in visible
      ensures forall v, x :: !(v in Uuids(online) && Has(old(playerBossbars), v, x) && x in old(bossbars)) ==>
        ((v, x) in visible <==> (v, x) in old(visible))
    {
      var i := 0;
      while i < |online|
        invariant 0 <= i <= |online|
        invariant bossbars == old(bossbars)
        invariant forall v, x :: v in Uuids(online[..i]) ==>
          (Has(playerBossbars, v, x) <==> Has(old(playerBossbars), v, x) && x !in bossbars)
        invariant forall v, x :: v !in Uuids(online[..i]) ==>
          (Has(playerBossbars, v, x) <==> Has(old(playerBossbars), v, x))
        invariant forall v, x :: v in Uuids(online[..i]) && Has(old(playerBossbars), v, x) && x in bossbars ==>
          (v, x) !in visible
        invariant forall v, x :: !(v in Uuids(online[..i]) && Has(old(playerBossbars), v, x) && x in bossbars) ==>
          ((v, x) in visible <==> (v, x) in old(visible))
      {
        assert online[..i + 1] == online[..i] + [online[i]];
        HideAll(online[i]);
        i := i + 1;
      }
      assert online[..i] == online;
      bossbars := map[];
      playerBossbars := map[];
    }
  }
}
