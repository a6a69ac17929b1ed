/** `ScoreboardManager`: which sidebar a player gets, how its lines are
    numbered, and the bookkeeping of who sees which sidebar. */
module Scoreboard {
  import opened Host
  import opened Wrappers
  import opened Colors

  /** One entry of `scoreboards` (the title and the lines are all the
      display uses). */
  datatype ScoreboardData = ScoreboardData(title: string, lines: seq<string>, refresh: int,
                                           showNumbers: bool, customNumber: int, rightSideText: seq<string>)

  /** The sidebar holds at most this many lines. */
  const MAX_LINES: nat := 15

  /** `getScoreboardForPlayer`: the world's assignment when there is one,
      else `"default"`. */
  function ScoreboardFor(world: string, worlds: map<string, string>): (id: string)
    ensures world in worlds ==> id == worlds[world]
    ensures world !in worlds ==> id == "default"
  {
    if world in worlds then worlds[world] else "default"
  }

  function Min(a: nat, b: nat): nat { if a < b then a else b }

  /** The sidebar entries as shown: PlaceholderAPI (`papi`) then the legacy
      conversion. */
  function Rendered(lines: seq<string>, papi: string -> string, mini: string -> Option<string>): (r: seq<string>)
    ensures |r| == |lines|
  {
    seq(|lines|, i requires 0 <= i < |lines| => ConvertToLegacy(papi(lines[i]), mini))
  }

  /** The scores after the first `k` lines: line `i` gets `total - i`, and
      since scores are keyed by the entry text a repeated line keeps the
      score of its last placement. */
  function Placed(entries: seq<string>, total: int, k: nat): (r: map<string, int>)
    requires k <= |entries|
    ensures forall e :: e in r ==> total - k < r[e] <= total
  {
    if k == 0 then map[] else Placed(entries, total, k - 1)[entries[k - 1] := total - (k - 1)]
  }

  /** Exactly the first `k` entries are on the sidebar. */
  lemma {:induction false} PlacedKeys(entries: seq<string>, total: int, k: nat)
    requires k <= |entries|
    ensures Placed(entries, total, k).Keys == set i | 0 <= i < k :: entries[i]
  {
    if k > 0 {
      PlacedKeys(entries, total, k - 1);
      var prev := set i | 0 <= i < k - 1 :: entries[i];
      assert (set i | 0 <= i < k :: entries[i]) == prev + {entries[k - 1]};
    }
  }

  /** An update adds at most one key. */
  lemma UpdateCount(m: map<string, int>, key: string, v: int)
    ensures |m[key := v]| <= |m| + 1
  {
    if key in m {
      assert m[key := v].Keys == m.Keys;
    } else {
      assert m[key := v].Keys == m.Keys + {key};
    }
  }

  /** At most `k` entries after `k` placements. */
  lemma {:induction false} PlacedCount(entries: seq<string>, total: int, k: nat)
    requires k <= |entries|
    ensures |Placed(entries, total, k)| <= k
  {
    if k > 0 {
      PlacedCount(entries, total, k - 1);
      UpdateCount(Placed(entries, total, k - 1), entries[k - 1], total - (k - 1));
    }
  }

  /** Entry `i` is on the sidebar with score `total - i`, or lower when the
      same text comes again later. */
  lemma {:induction false} PlacedScore(entries: seq<string>, total: int, k: nat)
    requires k <= |entries|
    ensures forall i :: 0 <= i < k ==>
      entries[i] in Placed(entries, total, k) && Placed(entries, total, k)[entries[i]] <= total - i
    ensures forall i :: 0 <= i < k && (forall j :: i < j < k ==> entries[j] != entries[i]) ==>
      entries[i] in Placed(entries, total, k) && Placed(entries, total, k)[entries[i]] == total - i
  {
    if k > 0 {
      PlacedScore(entries, total, k - 1);
      var prev := Placed(entries, total, k - 1);
      var cur := Placed(entries, total, k);
      forall i | 0 <= i < k ensures entries[i] in cur && cur[entries[i]] <= total - i {
        if entries[i] != entries[k - 1] {
          assert cur[entries[i]] == prev[entries[i]];
        }
      }
    }
  }

  /** With no repeated line the scores strictly decrease from the top. */
  lemma DistinctLinesDecrease(entries: seq<string>, total: int, k: nat, i: nat, j: nat)
    requires k <= |entries| && i < j < k
    requires forall a, b :: 0 <= a < b < k ==> entries[a] != entries[b]
    ensures entries[i] in Placed(entries, total, k) && entries[j] in Placed(entries, total, k)
    ensures Placed(entries, total, k)[entries[i]] == total - i
    ensures Placed(entries, total, k)[entries[i]] > Placed(entries, total, k)[entries[j]]
  {
    PlacedScore(entries, total, k);
  }

  /** The loop of `showScoreboard`: up to 15 lines, line `i` scored
      `lines.size() - i`. */
  method PlaceLines(lines: seq<string>, papi: string -> string, mini: string -> Option<string>) returns (scores: map<string, int>)
    ensures scores == Placed(Rendered(lines, papi, mini), |lines|, Min(|lines|, MAX_LINES))
  {
    ghost var entries := Rendered(lines, papi, mini);
    scores := map[];
    var i := 0;
    while i < |lines| && i < MAX_LINES
      invariant 0 <= i <= Min(|lines|, MAX_LINES)
      invariant scores == Placed(entries, |lines|, i)
    {
      scores := scores[ConvertToLegacy(papi(lines[i]), mini) := |lines| - i];
      i := i + 1;
    }
  }

  /** A sidebar has at most 15 entries, all scored between 1 and the number
      of configured lines. */
  lemma SidebarBounds(lines: seq<string>, papi: string -> string, mini: string -> Option<string>)
    ensures var scores := Placed(Rendered(lines, papi, mini), |lines|, Min(|lines|, MAX_LINES));
      |scores| <= MAX_LINES &&
      forall e :: e in scores ==> 1 <= scores[e] <= |lines| && scores[e] > |lines| - MAX_LINES
  {
    PlacedCount(Rendered(lines, papi, mini), |lines|, Min(|lines|, MAX_LINES));
  }

  /** The scoreboard a player has been given: a fresh empty one, or one
      with the `dztablist` sidebar. */
  datatype Board = Blank | Sidebar(title: string, scores: map<string, int>)

  /** The board `showScoreboard` builds for one scoreboard: the title through
      PlaceholderAPI, and the first 15 lines scored from the top. */
  function SidebarOf(data: ScoreboardData, papi: string -> string, mini: string -> Option<string>): (b: Board)
    ensures b.Sidebar? && b.title == papi(data.title)
    ensures |b.scores| <= MAX_LINES
    ensures forall e :: e in b.scores ==> 1 <= b.scores[e] <= |data.lines|
    ensures forall i :: 0 <= i < Min(|data.lines|, MAX_LINES) ==>
      ConvertToLegacy(papi(data.lines[i]), mini) in b.scores
  {
    var entries := Rendered(data.lines, papi, mini);
    var k := Min(|data.lines|, MAX_LINES);
    SidebarBounds(data.lines, papi, mini);
    PlacedKeys(entries, |data.lines|, k);
    assert forall i :: 0 <= i < k ==> entries[i] == ConvertToLegacy(papi(data.lines[i]), mini);
    Sidebar(papi(data.title), Placed(entries, |data.lines|, k))
  }

  /** The sidebar state: the loaded scoreboards, which one each player (by
      UUID) was shown, and the board each player holds. */
  class ScoreboardManager {
    var scoreboards: map<string, ScoreboardData>
    var playerScoreboards: map<string, string>
    var boards: map<string, Board>

    constructor (loaded: map<string, ScoreboardData>)
      ensures scoreboards == loaded && playerScoreboards == map[] && boards == map[]
    {
      scoreboards := loaded;
      playerScoreboards := map[];
      boards := map[];
    }

    /** `showScoreboard`: an unknown id does nothing; otherwise the player
        gets a new board with the title and lines, and the id is recorded. */
    method ShowScoreboard(p: Player, id: string, papi: string -> string, mini: string -> Option<string>)
      modifies this`playerScoreboards, this`boards
      ensures id !in scoreboards ==> playerScoreboards == old(playerScoreboards) && boards == old(boards)
      ensures id in scoreboards ==>
        playerScoreboards == old(playerScoreboards)[p.uuid := id] &&
        boards == old(boards)[p.uuid := SidebarOf(scoreboards[id], papi, mini)]
    {
      if id !in scoreboards {
        return;
      }
      var data := scoreboards[id];
      var scores := PlaceLines(data.lines, papi, mini);
      boards := boards[p.uuid := Sidebar(papi(data.title), scores)];
      playerScoreboards := playerScoreboards[p.uuid := id];
    }

    /** `hideScoreboard`: a blank board, and the player's entry removed. */
    method HideScoreboard(p: Player)
      modifies this`playerScoreboards, this`boards
      ensures playerScoreboards == old(playerScoreboards) - {p.uuid}
      ensures boards == old(boards)[p.uuid := Blank]
    {
      boards := boards[p.uuid := Blank];
      playerScoreboards := playerScoreboards - {p.uuid};
    }

    /** `updateScoreboard`: nothing when the player's toggle (`enabled`) is
        off or the chosen id is unknown; otherwise `showScoreboard`. */
    method UpdateScoreboard(p: Player, enabled: bool, world: string, worlds: map<string, string>,
                            papi: string -> string, mini: string -> Option<string>)
      modifies this`playerScoreboards, this`boards
      ensures var id := ScoreboardFor(world, worlds);
        (!enabled || id !in scoreboards) ==> playerScoreboards == old(playerScoreboards) && boards == old(boards)
      ensures var id := ScoreboardFor(world, worlds);
        (enabled && id in scoreboards) ==>
          playerScoreboards == old(playerScoreboards)[p.uuid := id] &&
          boards == old(boards)[p.uuid := SidebarOf(scoreboards[id], papi, mini)]
    {
      if !enabled {
        return;
      }
      var id := ScoreboardFor(world, worlds);
      if id !in scoreboards {
        return;
      }
      ShowScoreboard(p, id, papi, mini);
    }

    /** `toggleScoreboard`: the stored toggle is flipped (the new value is
        returned for saving); off hides the sidebar, on updates it. */
    method ToggleScoreboard(p: Player, stored: bool, world: string, worlds: map<string, string>,
                            papi: string -> string, mini: string -> Option<string>) returns (enabled: bool)
      modifies this`playerScoreboards, this`boards
      ensures enabled == !stored
      ensures !enabled ==> playerScoreboards == old(playerScoreboards) - {p.uuid} && boards == old(boards)[p.uuid := Blank]
      ensures var id := ScoreboardFor(world, worlds);
        enabled && id in scoreboards ==>
          playerScoreboards == old(playerScoreboards)[p.uuid := id] &&
          boards == old(boards)[p.uuid := SidebarOf(scoreboards[id], papi, mini)]
      ensures enabled && ScoreboardFor(world, worlds) !in scoreboards ==>
        playerScoreboards == old(playerScoreboards) && boards == old(boards)
    {
      enabled := !stored;
      if !enabled {
        HideScoreboard(p);
      } else {
        UpdateScoreboard(p, enabled, world, worlds, papi, mini);
      }
    }

    /** `reload`: both maps cleared, then the scoreboards reloaded. */
    method Reload(loaded: map<string, ScoreboardData>)
      modifies this`scoreboards, this`playerScoreboards
      ensures scoreboards == loaded && playerScoreboards == map[]
    {
      scoreboards := map[];
      playerScoreboards := map[];
      scoreboards := scoreboards + loaded;
    }

    /** `shutdown`: every online player's sidebar hidden, then both maps
        cleared. */
    method Shutdown(online: seq<Player>)
      modifies this`scoreboards, this`playerScoreboards, this`boards
      ensures scoreboards == map[] && playerScoreboards == map[]
      ensures forall i :: 0 <= i < |online| ==> online[i].uuid in boards && boards[online[i].uuid] == Blank
      ensures forall u :: u in old(boards) && u !in Uuids(online) ==> u in boards && boards[u] == old(boards)[u]
      ensures boards.Keys == old(boards).Keys + Uuids(online)
    {
      var i := 0;
      while i < |online|
        invariant 0 <= i <= |online|
        invariant forall j :: 0 <= j < i ==> online[j].uuid in boards && boards[online[j].uuid] == Blank
        invariant forall u :: u in old(boards) && u !in Uuids(online[..i]) ==> u in boards && boards[u] == old(boards)[u]
        invariant boards.Keys == old(boards).Keys + Uuids(online[..i])
      {
        assert online[..i + 1] == online[..i] + [online[i]];
        HideScoreboard(online[i]);
        i := i + 1;
      }
      assert online[..i] == online;
      scoreboards := map[];
      playerScoreboards := map[];
    }
  }
}
