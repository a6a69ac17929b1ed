/** `NameTagManager`: the prefix and suffix shown around a player's name,
    the scoreboard team that carries them, and the per-player cache. */
module NameTags {
  import opened Wrappers
  import opened Host
  import opened Colors

  /** One entry of `groups` (missing keys read as ""). */
  datatype NameTagData = NameTagData(prefix: string, suffix: string, priority: int)

  /** What `NameTagConfig` supplies: the `global` prefix and suffix and the groups. */
  datatype NameTagConfig = NameTagConfig(globalPrefix: string, globalSuffix: string, groups: map<string, NameTagData>)

  /** `getPrefix` and `getSuffix` are the same lookup on different fields. */
  datatype Part = PrefixPart | SuffixPart

  function Field(d: NameTagData, part: Part): string {
    match part
    case PrefixPart => d.prefix
    case SuffixPart => d.suffix
  }

  function GlobalField(config: NameTagConfig, part: Part): string {
    match part
    case PrefixPart => config.globalPrefix
    case SuffixPart => config.globalSuffix
  }

  /** The text `getPrefix` / `getSuffix` picks for group `g`: the group's
      entry whenever the group is configured, else the global text. */
  function Configured(config: NameTagConfig, g: string, part: Part): string {
    if g in config.groups then Field(config.groups[g], part) else GlobalField(config, part)
  }

  /** `getPrefix` / `getSuffix`: the configured text, then `render` (the
      player's `PlaceholderUtil.replacePlaceholders`, which throws when an
      animation has no frames). `group` is `None` when LuckPerms has no user
      for the player, which throws a `NullPointerException` before anything
      is rendered. */
  function Resolve(config: NameTagConfig, group: Option<string>, part: Part,
                   render: string -> Result<string, JavaException>): (r: Result<string, JavaException>)
    ensures group.None? ==> r == Failure(NullPointer)
    ensures r.Failure? <==> group.None? || render(Configured(config, group.value, part)).Failure?
  {
    if group.None? then Failure(NullPointer)
    else render(Configured(config, group.value, part))
  }

  /** A configured group wins even when its text is empty; any other group
      gets the global text. */
  lemma GroupEntryWins(config: NameTagConfig, g: string, part: Part, render: string -> Result<string, JavaException>)
    ensures g in config.groups ==> Resolve(config, Some(g), part, render) == render(Field(config.groups[g], part))
    ensures g in config.groups && Field(config.groups[g], part) == "" ==> Resolve(config, Some(g), part, render) == render("")
    ensures g !in config.groups ==> Resolve(config, Some(g), part, render) == render(GlobalField(config, part))
  {
  }

  /** The 16-character limit of a team prefix or suffix. */
  const MAX_AFFIX: nat := 16

  /** `s.length() > 16 ? s.substring(0, 16) : s`. */
  function Truncate(s: string): (r: string)
    ensures |r| <= MAX_AFFIX
    ensures |r| <= |s| && r == s[..|r|]
    ensures |s| <= MAX_AFFIX <==> r == s
  {
    if |s| > MAX_AFFIX then s[..MAX_AFFIX] else s
  }

  lemma TruncateIdempotent(s: string)
    ensures Truncate(Truncate(s)) == Truncate(s)
  {
  }

  function TeamName(playerName: string): (r: string)
    ensures |r| == |playerName| + 4 && r[4..] == playerName
  {
    "dzt_" + playerName
  }

  /** Distinct players get distinct teams. */
  lemma TeamNameInjective(a: string, b: string)
    requires TeamName(a) == TeamName(b)
    ensures a == b
  {
    assert a == TeamName(a)[4..];
  }

  /** A scoreboard team: its prefix, suffix and member names. */
  datatype Team = Team(prefix: string, suffix: string, entries: set<string>)

  /** The teams of one scoreboard, by name. */
  type Board = map<string, Team>

  /** `applyNameTag` on the player's board: the team `dzt_<name>` is
      registered when missing, gets the legacy text cut to 16 characters,
      and lists the player. No other team changes. */
  function ApplyToBoard(board: Board, playerName: string, prefix: string, suffix: string, mini: string -> Option<string>): (r: Board)
    ensures r.Keys == board.Keys + {TeamName(playerName)}
    ensures forall k :: k in board && k != TeamName(playerName) ==> r[k] == board[k]
    ensures var t := r[TeamName(playerName)];
      t.prefix == Truncate(ConvertToLegacy(prefix, mini)) && t.suffix == Truncate(ConvertToLegacy(suffix, mini)) &&
      playerName in t.entries &&
      t.entries == (if TeamName(playerName) in board then board[TeamName(playerName)].entries else {}) + {playerName}
  {
    var name := TeamName(playerName);
    var entries := if name in board then board[name].entries else {};
    board[name := Team(Truncate(ConvertToLegacy(prefix, mini)), Truncate(ConvertToLegacy(suffix, mini)), entries + {playerName})]
  }

  /** Applying the same tag twice is applying it once. */
  lemma ApplyIdempotent(board: Board, playerName: string, prefix: string, suffix: string, mini: string -> Option<string>)
    ensures var once := ApplyToBoard(board, playerName, prefix, suffix, mini);
      ApplyToBoard(once, playerName, prefix, suffix, mini) == once
  {
    var once := ApplyToBoard(board, playerName, prefix, suffix, mini);
    var twice := ApplyToBoard(once, playerName, prefix, suffix, mini);
    assert twice.Keys == once.Keys;
    assert twice[TeamName(playerName)] == once[TeamName(playerName)];
  }

  /** The nametag state: the cached (prefix, suffix) per player UUID, and the
      team board of every player who has left the main scoreboard. */
  class NameTagManager {
    var cache: map<string, (string, string)>
    var boards: map<string, Board>

    constructor ()
      ensures cache == map[] && boards == map[]
    {
      cache := map[];
      boards := map[];
    }

    /** The player's board: their own, or a new empty one replacing the main
        scoreboard. */
    function BoardOf(p: Player): Board
      reads this
    {
      if p.uuid in boards then boards[p.uuid] else map[]
    }

    /** `applyNameTag`. */
    method ApplyNameTag(p: Player, prefix: string, suffix: string, mini: string -> Option<string>)
      modifies this`boards
      ensures boards == old(boards)[p.uuid := ApplyToBoard(old(BoardOf(p)), p.name, prefix, suffix, mini)]
    {
      boards := boards[p.uuid := ApplyToBoard(BoardOf(p), p.name, prefix, suffix, mini)];
    }

    /** `updateNameTag`: prefix and suffix resolved, applied and cached. A
        player without a LuckPerms user, or a placeholder replacement that
        throws, fails before anything changes; the exception is logged. */
    method UpdateNameTag(p: Player, config: NameTagConfig, group: Option<string>,
                         render: string -> Result<string, JavaException>, mini: string -> Option<string>)
      returns (r: Result<(string, string), JavaException>)
      modifies this`cache, this`boards
      ensures var pre, suf := Resolve(config, group, PrefixPart, render), Resolve(config, group, SuffixPart, render);
        (r.Failure? <==> pre.Failure? || suf.Failure?) &&
        (r.Failure? ==> r.error == (if pre.Failure? then pre.error else suf.error))
      ensures r.Failure? ==> cache == old(cache) && boards == old(boards)
      ensures r.Success? ==>
        var prefix, suffix := Resolve(config, group, PrefixPart, render).value, Resolve(config, group, SuffixPart, render).value;
        r.value == (prefix, suffix) &&
        cache == old(cache)[p.uuid := (prefix, suffix)] &&
        boards == old(boards)[p.uuid := ApplyToBoard(old(BoardOf(p)), p.name, prefix, suffix, mini)]
    {
      var prefix := Resolve(config, group, PrefixPart, render);
      if prefix.Failure? {
        return Failure(prefix.error);
      }
      var suffix := Resolve(config, group, SuffixPart, render);
      if suffix.Failure? {
        return Failure(suffix.error);
      }
      ApplyNameTag(p, prefix.value, suffix.value, mini);
      cache := cache[p.uuid := (prefix.value, suffix.value)];
      r := Success((prefix.value, suffix.value));
    }

    /** `setPrefix`: the cached suffix ("" if none) is kept. */
    method SetPrefix(p: Player, prefix: string, mini: string -> Option<string>)
      modifies this`cache, this`boards
      ensures var suffix := if p.uuid in old(cache) then old(cache)[p.uuid].1 else "";
        cache == old(cache)[p.uuid := (prefix, suffix)] &&
        boards == old(boards)[p.uuid := ApplyToBoard(old(BoardOf(p)), p.name, prefix, suffix, mini)]
    {
      var suffix := if p.uuid in cache then cache[p.uuid].1 else "";
      ApplyNameTag(p, prefix, suffix, mini);
      cache := cache[p.uuid := (prefix, suffix)];
    }

    /** `setSuffix`: the cached prefix ("" if none) is kept. */
    method SetSuffix(p: Player, suffix: string, mini: string -> Option<string>)
      modifies this`cache, this`boards
      ensures var prefix := if p.uuid in old(cache) then old(cache)[p.uuid].0 else "";
        cache == old(cache)[p.uuid := (prefix, suffix)] &&
        boards == old(boards)[p.uuid := ApplyToBoard(old(BoardOf(p)), p.name, prefix, suffix, mini)]
    {
      var prefix := if p.uuid in cache then cache[p.uuid].0 else "";
      ApplyNameTag(p, prefix, suffix, mini);
      cache := cache[p.uuid := (prefix, suffix)];
    }

    /** `reload` and `shutdown`: the cache is emptied (the update task is
        restarted or cancelled). */
    method Reload()
      modifies this`cache
      ensures cache == map[]
    {
      cache := map[];
    }
  }

  /** `setPrefix` then `setSuffix` leaves both in the cache, whatever was
      there before. */
  method SetBoth(m: NameTagManager, p: Player, prefix: string, suffix: string, mini: string -> Option<string>)
    modifies m`cache, m`boards
    ensures m.cache == old(m.cache)[p.uuid := (prefix, suffix)]
    ensures p.uuid in m.boards && TeamName(p.name) in m.boards[p.uuid]
    ensures var t := m.boards[p.uuid][TeamName(p.name)];
      t.prefix == Truncate(ConvertToLegacy(prefix, mini)) && t.suffix == Truncate(ConvertToLegacy(suffix, mini)) && p.name in t.entries
  {
    m.SetPrefix(p, prefix, mini);
    m.SetSuffix(p, suffix, mini);
  }
}
