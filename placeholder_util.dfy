/** `PlaceholderUtil`: the fixed order in which a text meets PlaceholderAPI,
    the internal placeholders and the colour-code translation. */
module PlaceholderUtil {
  import opened Wrappers
  import opened Strings
  import opened Host
  import opened Colors
  import opened Placeholders

  /** PlaceholderAPI's `setPlaceholders` when that plugin is enabled
      (`Some`); a disabled plugin leaves the text as it is. */
  function ApplyPapi(papi: Option<(Player, string) -> string>, player: Player, text: string): string {
    match papi
    case None => text
    case Some(f) => f(player, text)
  }

  /** PlaceholderAPI's `setRelationalPlaceholders` when enabled. */
  function ApplyRelational(papi: Option<(Player, Player, string) -> string>, viewer: Player, target: Player, text: string): string {
    match papi
    case None => text
    case Some(f) => f(viewer, target, text)
  }

  /** `replacePlaceholders(player, text)`: `null` gives ""; otherwise
      PlaceholderAPI first (if enabled), then the manager's `replace`, then
      `translateLegacyToMiniMessage`, so colour codes produced by either
      substitution are translated too. */
  method ReplacePlaceholders(manager: PlaceholderManager, player: Player, text: Option<string>,
                             papi: Option<(Player, string) -> string>, customOrder: seq<string>, now: int)
    returns (r: Result<string, JavaException>)
    requires manager.Valid() && IsInt64(now)
    requires IsEnumeration(customOrder, manager.customPlaceholders.Keys)
    modifies manager.animationValues
    ensures manager.Valid()
    ensures text.None? ==> r == Success("") && unchanged(manager.animationValues)
    ensures text.Some? ==> FramesRead(manager.animationValues, old(StatesOf(manager.animationValues)), now, r)
    ensures text.Some? && r.Success? ==>
      r.value == TranslateLegacyToMiniMessage(
        ReplaceEach(ReplaceEach(ApplyPapi(papi, player, text.value), FramePairs(manager.animationIds, manager.animationValues)),
                    CustomPairs(manager.customPlaceholders, customOrder, player)))
  {
    if text.None? {
      return Success("");
    }
    var t := ApplyPapi(papi, player, text.value);
    r := manager.Replace(player, Some(t), customOrder, now);
    if r.Success? {
      r := Success(TranslateLegacyToMiniMessage(r.value));
    }
  }

  /** `replaceRelationalPlaceholders(viewer, target, text)`: `null` gives "";
      otherwise PlaceholderAPI's relational pass (if enabled), then the
      manager's `replaceRelational`, then the colour translation. */
  method ReplaceRelationalPlaceholders(manager: PlaceholderManager, viewer: Player, target: Player, text: Option<string>,
                                       papi: Option<(Player, Player, string) -> string>, order: seq<string>)
    returns (r: string)
    requires IsEnumeration(order, manager.relationalPlaceholders.Keys)
    ensures text.None? ==> r == ""
    ensures text.Some? ==>
      r == TranslateLegacyToMiniMessage(
        ReplaceEach(ApplyRelational(papi, viewer, target, text.value),
                    RelationalPairs(manager.relationalPlaceholders, order, viewer, target)))
  {
    if text.None? {
      return "";
    }
    var t := ApplyRelational(papi, viewer, target, text.value);
    r := manager.ReplaceRelational(viewer, target, Some(t), order);
    r := TranslateLegacyToMiniMessage(r);
  }

  /** `parseNumericPlaceholder(player, placeholder)`: the substituted value,
      stripped of colour codes by `strip`, read by the number parser `num`;
      a value that is not a number gives 0. An exception of the
      substitution escapes. */
  method ParseNumericPlaceholder(manager: PlaceholderManager, player: Player, placeholder: Option<string>,
                                 papi: Option<(Player, string) -> string>, customOrder: seq<string>, now: int,
                                 strip: string -> string, num: string -> Option<real>)
    returns (r: Result<real, JavaException>)
    requires manager.Valid() && IsInt64(now)
    requires IsEnumeration(customOrder, manager.customPlaceholders.Keys)
    modifies manager.animationValues
    ensures manager.Valid()
    ensures placeholder.None? ==> r == Success(num(strip("")).GetOr(0.0)) && unchanged(manager.animationValues)
    ensures placeholder.Some? ==> FramesRead(manager.animationValues, old(StatesOf(manager.animationValues)), now, r)
    ensures placeholder.Some? && r.Success? ==>
      r.value == num(strip(TranslateLegacyToMiniMessage(
        ReplaceEach(ReplaceEach(ApplyPapi(papi, player, placeholder.value), FramePairs(manager.animationIds, manager.animationValues)),
                    CustomPairs(manager.customPlaceholders, customOrder, player))))).GetOr(0.0)
  {
    var value := ReplacePlaceholders(manager, player, placeholder, papi, customOrder, now);
    if value.Failure? {
      return Failure(value.error);
    }
    r := Success(num(strip(value.value)).GetOr(0.0));
  }

  /** A text with no `%` and no `&` leaves both substitution chains and the
      colour translation unchanged: whatever is registered, only
      PlaceholderAPI can alter it. */
  lemma PlainTextUnchanged(text: string, frames: seq<(string, string)>, custom: seq<(string, string)>)
    requires PercentTargets(frames) && PercentTargets(custom)
    requires '%' !in text && '&' !in text
    ensures TranslateLegacyToMiniMessage(ReplaceEach(ReplaceEach(text, frames), custom)) == text
  {
    WithoutPercentUnchanged(text, frames);
    WithoutPercentUnchanged(text, custom);
    TranslateKeepsTextWithoutCodes(text);
  }

  /** The relational chain likewise leaves such text unchanged. */
  lemma PlainRelationalTextUnchanged(text: string, rel: seq<(string, string)>)
    requires PercentTargets(rel) && '%' !in text && '&' !in text
    ensures TranslateLegacyToMiniMessage(ReplaceEach(text, rel)) == text
  {
    WithoutPercentUnchanged(text, rel);
    TranslateKeepsTextWithoutCodes(text);
  }
}
