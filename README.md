# DZTablist core, modelled in Dafny

DZTablist is a Paper/Bukkit plugin that decorates a Minecraft server's player
list and related displays. This project models its engine. That covers:

- the condition language (`ConditionUtil`);
- the header/footer lookup with its priority layers (`HeaderFooterManager`);
- the placeholder registry and animations (`PlaceholderManager`, `PlaceholderUtil`);
- the server-list MOTD: its conditions, rotation and animation (`MotdManager`, `MotdConfig`);
- colour conversion (`ColorUtil`) and duration formatting (`TimeUtil`);
- the per-feature timing counters (`PerformanceMonitor`);
- the update checker's version arithmetic (`UpdateChecker`);
- tablist sorting (`SortingManager`);
- nametags, sidebars and boss bars (`NameTagManager`, `ScoreboardManager`, `BossbarManager`).

Modelling conventions:

- Java `null` becomes `Option` and an exception that escapes becomes a `Result`
  failure (module `Wrappers`). Java's `String` operations are written out in
  module `Strings`: literal `replace`, `split` dropping trailing empty strings,
  `trim`, `int`/`long` wrap-around, and truncating `/` and `%`.
- Services the plugin calls out to are parameters of the model: PlaceholderAPI,
  LuckPerms, MiniMessage, `Double.parseDouble`, the clock, the database toggles
  and the server's counts.
- `HashMap` iteration order appears as an explicit sequence of the map's keys.
- Objects whose fields the source updates in place are Dafny classes whose
  methods change only the fields they name: the managers, `MotdEntry` and
  `Animation`.
- Pure helpers are functions. The loops of the source are methods with loop
  invariants, proved against those functions.

## Model

All paths are under `src/main/java/online/demonzdevelopment/`, written out in full.

| member | source | states |
|---|---|---|
| Condition.RunEnd | src/main/java/online/demonzdevelopment/util/ConditionUtil.java:16 | the end of a maximal run of operator (or non-operator) characters, as a greedy character class of the pattern consumes it |
| Condition.ParseLeaf | src/main/java/online/demonzdevelopment/util/ConditionUtil.java:53-60 | a match yields a non-empty operator made only of `<>=!` and trimmed sides free of them |
| Condition.ParseLeafFindsMatch | src/main/java/online/demonzdevelopment/util/ConditionUtil.java:53-56 | `find()` succeeds exactly when a non-operator character is later followed by an operator run and then a non-operator character |
| Condition.CompareLeaf | src/main/java/online/demonzdevelopment/util/ConditionUtil.java:62-83 | two numbers are compared numerically; otherwise only `==`/`!=` apply, case-insensitively, and an unknown operator is false |
| Condition.LeafHolds | src/main/java/online/demonzdevelopment/util/ConditionUtil.java:50-83 | a leaf whose substituted text has no match is false |
| Condition.Evaluate | src/main/java/online/demonzdevelopment/util/ConditionUtil.java:23-26 | a null or empty condition holds |
| Condition.EvaluateAll | src/main/java/online/demonzdevelopment/util/ConditionUtil.java:89-100 | true iff the list is null or every condition holds (vacuous for an empty list) |
| Condition.AllHold | src/main/java/online/demonzdevelopment/util/ConditionUtil.java:94-99 | the early-exit loop is true iff every condition holds |
| Condition.EvaluateAny | src/main/java/online/demonzdevelopment/util/ConditionUtil.java:105-116 | true iff the list is null, empty, or some condition holds |
| Condition.SomeHolds | src/main/java/online/demonzdevelopment/util/ConditionUtil.java:110-115 | the early-exit loop is true iff some condition holds |
| Condition.EvalTextIsEvalParse | src/main/java/online/demonzdevelopment/util/ConditionUtil.java:29-47 | evaluating a text equals evaluating the AND/OR tree read off the raw text |
| Condition.ParseWithoutAnd | src/main/java/online/demonzdevelopment/util/ConditionUtil.java:39-47 | a text without ` AND ` is a disjunction of leaves |
| Condition.ParseIsNormal | src/main/java/online/demonzdevelopment/util/ConditionUtil.java:29-47 | every condition is a conjunction of disjunctions of leaves: ` OR ` binds tighter and nothing nests deeper |
| Condition.EvalLocal | src/main/java/online/demonzdevelopment/util/ConditionUtil.java:50 | two substitutions that agree on every leaf give the same verdict |
| Condition.SubstitutionOnlyAtLeaves | src/main/java/online/demonzdevelopment/util/ConditionUtil.java:29-50 | connectives are found before PlaceholderAPI runs, so a value containing ` AND ` cannot restructure the condition |
| HeaderFooter.FromLayer | src/main/java/online/demonzdevelopment/managers/HeaderFooterManager.java:87-91 | a map layer answers iff its key is present with non-empty lines, and then with those lines |
| HeaderFooter.Resolve | src/main/java/online/demonzdevelopment/managers/HeaderFooterManager.java:83-155 | `getHeader`/`getFooter` as one lookup; an empty result can only come from empty global lines (the layer order itself is stated by the three lemmas below) |
| HeaderFooter.FirstConditional | src/main/java/online/demonzdevelopment/managers/HeaderFooterManager.java:94-100 | the first conditional in list order whose condition holds (under the `evaluate` passed in) and whose lines are non-empty, or none iff no entry applies |
| HeaderFooter.PlayerEntryWins | src/main/java/online/demonzdevelopment/managers/HeaderFooterManager.java:87-91 | a player entry with lines beats every other layer |
| HeaderFooter.FirstApplyingConditionalWins | src/main/java/online/demonzdevelopment/managers/HeaderFooterManager.java:94-100 | without a player entry, the first applying conditional decides |
| HeaderFooter.FallbackOrder | src/main/java/online/demonzdevelopment/managers/HeaderFooterManager.java:103-118 | after the conditionals come group, then world, then the global lines |
| HeaderFooter.ConditionalPriorityIgnored | src/main/java/online/demonzdevelopment/managers/HeaderFooterManager.java:94-100 | the `priority` of a conditional is never consulted: any priorities give the same lines |
| HeaderFooter.SameLinesSameChoice | src/main/java/online/demonzdevelopment/managers/HeaderFooterManager.java:94-100 | the conditional choice depends only on each entry's condition and lines |
| HeaderFooter.HeaderAndFooterFromDifferentLayers | src/main/java/online/demonzdevelopment/managers/HeaderFooterManager.java:83-155 | header and footer are resolved independently: a player header can pair with the global footer |
| HeaderFooter.Joined | src/main/java/online/demonzdevelopment/managers/HeaderFooterManager.java:160-174 | the joined component of `n` lines has `2n - 1` nodes, none for no lines |
| HeaderFooter.JoinedShape | src/main/java/online/demonzdevelopment/managers/HeaderFooterManager.java:165-171 | node `2i` is line `i` after PlaceholderAPI and parsing, node `2i + 1` a newline |
| HeaderFooter.ParseLines | src/main/java/online/demonzdevelopment/managers/HeaderFooterManager.java:160-174 | null gives the empty component; otherwise the loop builds exactly the joined component of the lines |
| HeaderFooter.HeaderFooterManager.constructor | src/main/java/online/demonzdevelopment/managers/HeaderFooterManager.java:21 | the cache starts empty |
| HeaderFooter.HeaderFooterManager.UpdateHeaderFooter | src/main/java/online/demonzdevelopment/managers/HeaderFooterManager.java:55-78 | sends the joined resolved header and the joined resolved footer, and caches exactly that pair for the player; other players' entries are unchanged |
| HeaderFooter.HeaderFooterManager.SetHeader | src/main/java/online/demonzdevelopment/managers/HeaderFooterManager.java:179-185 | the new header is sent with the cached footer (empty if none), and cached |
| HeaderFooter.HeaderFooterManager.SetFooter | src/main/java/online/demonzdevelopment/managers/HeaderFooterManager.java:190-196 | the cached header (empty if none) is sent with the new footer, and cached |
| HeaderFooter.HeaderFooterManager.Reload | src/main/java/online/demonzdevelopment/managers/HeaderFooterManager.java:201-207 | the cache is emptied |
| HeaderFooter.HeaderFooterManager.Shutdown | src/main/java/online/demonzdevelopment/managers/HeaderFooterManager.java:212-217 | the cache is emptied |
| HeaderFooter.SetHeaderThenFooter | src/main/java/online/demonzdevelopment/managers/HeaderFooterManager.java:179-196 | `setHeader` then `setFooter` leaves exactly the two new parts sent and cached |
| Placeholders.After | src/main/java/online/demonzdevelopment/managers/PlaceholderManager.java:140-146 | a read keeps the cursor in range; once the interval has elapsed it moves one frame on (wrapping) and restamps the time, otherwise nothing changes |
| Placeholders.FrameRead | src/main/java/online/demonzdevelopment/managers/PlaceholderManager.java:140-146 | an animation without frames throws (`ArithmeticException` when due, index error otherwise); otherwise the next frame is returned when due, else the current one |
| Placeholders.AdvancedAdd | src/main/java/online/demonzdevelopment/managers/PlaceholderManager.java:142 | `a + b` elapsed reads advance the cursor as `a` reads followed by `b` reads |
| Placeholders.AdvancedBelow | src/main/java/online/demonzdevelopment/managers/PlaceholderManager.java:142 | before the last frame is reached, `k` elapsed reads move the cursor `k` on |
| Placeholders.FullCycle | src/main/java/online/demonzdevelopment/managers/PlaceholderManager.java:142 | as many elapsed reads as there are frames bring the cursor back |
| Placeholders.SingleFrame | src/main/java/online/demonzdevelopment/managers/PlaceholderManager.java:140-146 | a one-frame animation always shows that frame |
| Placeholders.Animation.constructor | src/main/java/online/demonzdevelopment/managers/PlaceholderManager.java:130-138 | a new animation holds its frames and interval, at frame 0, stamped with the clock |
| Placeholders.Animation.GetCurrentFrame | src/main/java/online/demonzdevelopment/managers/PlaceholderManager.java:140-146 | the result is `FrameRead` of the old state and the new state is `After` it |
| Placeholders.WithoutPercentUnchanged | src/main/java/online/demonzdevelopment/managers/PlaceholderManager.java:84-91 | a text without `%` passes through every token chain unchanged |
| Placeholders.UnknownTokenStays | src/main/java/online/demonzdevelopment/managers/PlaceholderManager.java:89-91 | a `%name%` token that no registered entry names stays literally in the text, whatever `%`-free text surrounds it |
| Placeholders.ReadFrames | src/main/java/online/demonzdevelopment/managers/PlaceholderManager.java:84-86 | the animations are read in iteration order; the loop fails iff some animation has no frames, and otherwise returns each one's shown frame |
| Placeholders.ReplaceFrames | src/main/java/online/demonzdevelopment/managers/PlaceholderManager.java:84-86 | on success, every `%animation_<id>%` is replaced by that animation's frame, in order |
| Placeholders.ReplaceCustom | src/main/java/online/demonzdevelopment/managers/PlaceholderManager.java:89-91 | every `%placeholder_<id>%` is replaced by its function's value, in iteration order |
| Placeholders.ReplaceAll | src/main/java/online/demonzdevelopment/managers/PlaceholderManager.java:80-94 | the animation tokens are replaced first, then the custom tokens |
| Placeholders.NewAnimations | src/main/java/online/demonzdevelopment/managers/PlaceholderManager.java:41-46 | one new, separate animation per configured id, with its frames and interval |
| Placeholders.PlaceholderManager.constructor | src/main/java/online/demonzdevelopment/managers/PlaceholderManager.java:21-27 | all three registries start empty |
| Placeholders.PlaceholderManager.RegisterPlaceholder | src/main/java/online/demonzdevelopment/managers/PlaceholderManager.java:58-60 | adds or overwrites one custom entry; nothing else changes |
| Placeholders.PlaceholderManager.RegisterRelationalPlaceholder | src/main/java/online/demonzdevelopment/managers/PlaceholderManager.java:65-67 | adds or overwrites one relational entry; nothing else changes |
| Placeholders.PlaceholderManager.UnregisterPlaceholder | src/main/java/online/demonzdevelopment/managers/PlaceholderManager.java:72-75 | removes the id from both registries and leaves the animations |
| Placeholders.PlaceholderManager.Replace | src/main/java/online/demonzdevelopment/managers/PlaceholderManager.java:80-94 | null gives ""; otherwise the animations are read and the result is both chains applied |
| Placeholders.PlaceholderManager.ReplaceRelational | src/main/java/online/demonzdevelopment/managers/PlaceholderManager.java:99-107 | null gives ""; otherwise every `%rel_<id>%` is replaced by its function's value for the pair |
| Placeholders.PlaceholderManager.Reload | src/main/java/online/demonzdevelopment/managers/PlaceholderManager.java:112-115 | the animations are rebuilt from the configuration; the registries are kept |
| Placeholders.PlaceholderManager.Shutdown | src/main/java/online/demonzdevelopment/managers/PlaceholderManager.java:120-124 | all three maps are emptied |
| Placeholders.PlaceholderManager.OnPlaceholderRequest | src/main/java/online/demonzdevelopment/managers/PlaceholderManager.java:170-188 | null player gives ""; `custom_` gives the function's value or ""; `animation_` reads that animation or gives ""; any other identifier gives null |
| PlaceholderUtil.ReplacePlaceholders | src/main/java/online/demonzdevelopment/util/PlaceholderUtil.java:21-36 | null gives ""; otherwise PlaceholderAPI runs first (when enabled), then the plugin's own tokens are replaced, then the legacy `&` codes are translated |
| PlaceholderUtil.ReplaceRelationalPlaceholders | src/main/java/online/demonzdevelopment/util/PlaceholderUtil.java:41-56 | null gives ""; otherwise relational PlaceholderAPI first (when enabled), then the `%rel_…%` tokens, then the `&` translation |
| PlaceholderUtil.ParseNumericPlaceholder | src/main/java/online/demonzdevelopment/util/PlaceholderUtil.java:61-68 | the substituted text stripped of colour codes, read as a number, or 0 when it is not one |
| PlaceholderUtil.PlainTextUnchanged | src/main/java/online/demonzdevelopment/util/PlaceholderUtil.java:21-36 | a text without `%` and `&` comes out as it went in |
| PlaceholderUtil.PlainRelationalTextUnchanged | src/main/java/online/demonzdevelopment/util/PlaceholderUtil.java:41-56 | likewise for the relational chain |
| MotdConfig.NextCursorInRange | src/main/java/online/demonzdevelopment/config/MotdConfig.java:194-198 | from a valid cursor, `getNextFrame` moves to the following frame, wrapping to 0, and stays in range |
| MotdConfig.NextCursorSingleFrame | src/main/java/online/demonzdevelopment/config/MotdConfig.java:196 | with one frame, every cursor moves to 0 |
| MotdConfig.AddFrameKeepsCursor | src/main/java/online/demonzdevelopment/config/MotdConfig.java:190 | appending a frame keeps a valid cursor valid |
| MotdConfig.NegativeCursorEscapes | src/main/java/online/demonzdevelopment/config/MotdConfig.java:192-196 | `setCurrentFrame` can leave a negative cursor that the next step keeps negative |
| MotdConfig.MotdEntry.constructor | src/main/java/online/demonzdevelopment/config/MotdConfig.java:164-176 | a new entry holds its key; every other field has its Java default; the cursor is valid |
| MotdConfig.MotdEntry.AddFrame | src/main/java/online/demonzdevelopment/config/MotdConfig.java:190 | appends the frame; the cursor stays valid |
| MotdConfig.MotdEntry.SetCurrentFrame | src/main/java/online/demonzdevelopment/config/MotdConfig.java:192 | stores any `int` cursor |
| MotdConfig.MotdEntry.GetNextFrame | src/main/java/online/demonzdevelopment/config/MotdConfig.java:194-198 | null without frames; otherwise the cursor advances by Java `%` and that frame is returned (an index error for a negative cursor) |
| MotdConfig.MotdEntry.CurrentFrameData | src/main/java/online/demonzdevelopment/config/MotdConfig.java:200-203 | null iff there are no frames; fails iff the cursor is out of range; otherwise the frame at the cursor |
| MotdConfig.KeptFrames | src/main/java/online/demonzdevelopment/config/MotdConfig.java:120-126 | at most one frame per map of the list |
| MotdConfig.KeptFramesAppend | src/main/java/online/demonzdevelopment/config/MotdConfig.java:120-126 | the filter distributes over concatenation, so kept frames stay in list order |
| MotdConfig.KeptFramesMembers | src/main/java/online/demonzdevelopment/config/MotdConfig.java:121-125 | a frame is kept iff some map holds both of its lines |
| MotdConfig.KeptFramesAllComplete | src/main/java/online/demonzdevelopment/config/MotdConfig.java:121-125 | when every map has both lines, every map gives one frame, in order |
| MotdConfig.AddKeptFrames | src/main/java/online/demonzdevelopment/config/MotdConfig.java:119-126 | the loop appends exactly the kept frames |
| MotdConfig.LoadEntry | src/main/java/online/demonzdevelopment/config/MotdConfig.java:109-139 | a fresh entry: enabled and priority default to true and 1; frames are used only for an animated entry with a `frames` list, lines otherwise (default ""); conditions only if given |
| MotdConfig.PresentKeys | src/main/java/online/demonzdevelopment/config/MotdConfig.java:108-110 | exactly the keys that name a section |
| MotdConfig.LoadStep | src/main/java/online/demonzdevelopment/config/MotdConfig.java:108-140 | one key examined, and its entry appended when it names a section |
| MotdConfig.LoadMotds | src/main/java/online/demonzdevelopment/config/MotdConfig.java:104-141 | one fresh entry per present key, in key order, each loaded from its section |
| MotdConfig.MotdConfigStore.constructor | src/main/java/online/demonzdevelopment/config/MotdConfig.java:45 | no entries |
| MotdConfig.MotdConfigStore.Reload | src/main/java/online/demonzdevelopment/config/MotdConfig.java:62-65 | the entries are replaced by those loaded afresh |
| Motd.TwoDigits | src/main/java/online/demonzdevelopment/managers/MotdManager.java:246-247 | a two-digit field is below 100 |
| Motd.ParseTime | src/main/java/online/demonzdevelopment/managers/MotdManager.java:246-247 | a parsed `HH:mm` is a whole minute of the day |
| Motd.ParseTimeOfPrinted | src/main/java/online/demonzdevelopment/managers/MotdManager.java:246-247 | every printed valid time parses back to its minute |
| Motd.TimeWindow | src/main/java/online/demonzdevelopment/managers/MotdManager.java:243-247 | a window exists only when the range splits into exactly two parts |
| Motd.TimeCondition | src/main/java/online/demonzdevelopment/managers/MotdManager.java:241-259 | true iff the range parses and now lies in the window |
| Motd.InTimeWindow | src/main/java/online/demonzdevelopment/managers/MotdManager.java:250-255 | equal ends hold all day; a daytime window holds between its ends, an overnight one outside the gap between them |
| Motd.ParseMonthDay | src/main/java/online/demonzdevelopment/managers/MotdManager.java:287-290 | a parsed date is a real day of that year's calendar |
| Motd.DateWindow | src/main/java/online/demonzdevelopment/managers/MotdManager.java:283-290 | a window exists only when the range splits into exactly two parts |
| Motd.DateCondition | src/main/java/online/demonzdevelopment/managers/MotdManager.java:281-302 | true iff the range parses and today lies in the window, wrapping over the new year |
| Motd.OrdinalOrdersDates | src/main/java/online/demonzdevelopment/managers/MotdManager.java:293-297 | the day ordinal orders dates like `isBefore` |
| Motd.FebruaryClamp | src/main/java/online/demonzdevelopment/managers/MotdManager.java:287-290 | `02/30` reads as the last day of February |
| Motd.DayCondition | src/main/java/online/demonzdevelopment/managers/MotdManager.java:264-276 | a single day (no comma) holds iff, lower-cased and trimmed, it is the name of today |
| Motd.DayConditionOfList | src/main/java/online/demonzdevelopment/managers/MotdManager.java:264-276 | `a,b` holds iff `a` holds or `b` holds, for any texts; with the single-day case this fixes the verdict of every comma list |
| Motd.DayConditionIgnoresCase | src/main/java/online/demonzdevelopment/managers/MotdManager.java:264-276 | the day list is matched without regard to case |
| Motd.ConditionDispatch | src/main/java/online/demonzdevelopment/managers/MotdManager.java:189-210 | each checked prefix runs its own check on the trimmed rest |
| Motd.CheckSingleCondition | src/main/java/online/demonzdevelopment/managers/MotdManager.java:189-227 | only a `player-count:`, `time:`, `day:` or `date:` condition can fail; `permission:`, `placeholder:`, `world:` and unknown conditions hold |
| Motd.Candidates | src/main/java/online/demonzdevelopment/managers/MotdManager.java:135-138 | exactly the enabled entries whose conditions all hold |
| Motd.CandidatesAppend | src/main/java/online/demonzdevelopment/managers/MotdManager.java:135-138 | the filter keeps declaration order |
| Motd.BestIndex | src/main/java/online/demonzdevelopment/managers/MotdManager.java:146-148 | `max` picks a largest priority, the first of equal maxima |
| Motd.SequentialPick | src/main/java/online/demonzdevelopment/managers/MotdManager.java:150-155 | the corrected index is always a valid position and agrees with Java `%` for a non-negative counter |
| Motd.SequentialPicksCycle | src/main/java/online/demonzdevelopment/managers/MotdManager.java:152-153 | consecutive pings cycle through the candidates |
| Motd.SequentialExample | src/main/java/online/demonzdevelopment/managers/MotdManager.java:152-153 | three candidates over four pings: first, second, third, first |
| Motd.SequentialPickAsWritten | src/main/java/online/demonzdevelopment/managers/MotdManager.java:152 | Java `%` of the counter, an index error when it is negative |
| Motd.SequentialOverflow | src/main/java/online/demonzdevelopment/managers/MotdManager.java:152-153 | the counter wraps to `INT_MIN` and the written index then throws; the corrected one stays valid |
| Motd.Pick | src/main/java/online/demonzdevelopment/managers/MotdManager.java:140-168 | null iff there are no candidates; any chosen entry is a candidate |
| Motd.PickByPriority | src/main/java/online/demonzdevelopment/managers/MotdManager.java:145-148 | `priority` and `timed` give the first entry of greatest priority |
| Motd.PickUnknownType | src/main/java/online/demonzdevelopment/managers/MotdManager.java:168 | an unknown rotation type gives the first candidate |
| Motd.MotdLines | src/main/java/online/demonzdevelopment/managers/MotdManager.java:93-105 | an animated entry, while animation is on, shows its current frame; everything else shows its two lines |
| Motd.ProcessPlaceholders | src/main/java/online/demonzdevelopment/managers/MotdManager.java:315-328 | null gives "" |
| Motd.PlainLineUnchanged | src/main/java/online/demonzdevelopment/managers/MotdManager.java:315-328 | without PlaceholderAPI a line without `%` is shown as written |
| Motd.DownsampleColors | src/main/java/online/demonzdevelopment/managers/MotdManager.java:333-339 | `closest-match` in any case is the closest-colour conversion; any other method leaves no tag and keeps text without `<` unchanged |
| Motd.RenderMotd | src/main/java/online/demonzdevelopment/managers/MotdManager.java:106-117 | modern clients, or downsampling off, get the two processed lines joined by a newline; so does text without `<` under the simple method |
| Motd.HandlePlayerCount | src/main/java/online/demonzdevelopment/managers/MotdManager.java:344-359 | a positive fixed count wins over an add; the add is `int` arithmetic; a positive maximum overrides |
| Motd.HandlePlayerCountSettles | src/main/java/online/demonzdevelopment/managers/MotdManager.java:344-359 | the maximum settles after one application, and so does a fixed count |
| Motd.Respond | src/main/java/online/demonzdevelopment/managers/MotdManager.java:88-128 | no MOTD, or a thrown exception, leaves the ping untouched |
| Motd.FirstFailing | src/main/java/online/demonzdevelopment/managers/MotdManager.java:56-60 | the first entry whose step throws, or none |
| Motd.InRangeNeverFails | src/main/java/online/demonzdevelopment/managers/MotdManager.java:56-60 | entries with valid cursors never make the animation task throw |
| Motd.MotdManager.constructor | src/main/java/online/demonzdevelopment/managers/MotdManager.java:40-44 | the rotation counter starts at 0 |
| Motd.MotdManager.GetBestMotd | src/main/java/online/demonzdevelopment/managers/MotdManager.java:134-169 | the pick among the candidates; only sequential rotation advances the counter |
| Motd.MotdManager.OnServerListPing | src/main/java/online/demonzdevelopment/managers/MotdManager.java:83-129 | disabled MOTDs leave the ping alone; otherwise the response to the chosen entry |
| Motd.MotdManager.TaskInterval | src/main/java/online/demonzdevelopment/managers/MotdManager.java:52-53 | the frame interval in ticks of 50 ms, at least 1 |
| Motd.AnimationTick | src/main/java/online/demonzdevelopment/managers/MotdManager.java:55-61 | every enabled animated entry steps in order; the animation task fails iff some entry's step throws, and the entries after it are not stepped |
| Colors.ColorDistance | src/main/java/online/demonzdevelopment/util/ColorUtil.java:103-107 | non-negative, zero exactly for equal colours, bounded by three channel ranges squared |
| Colors.ColorDistanceSymmetric | src/main/java/online/demonzdevelopment/util/ColorUtil.java:103-107 | the distance is symmetric |
| Colors.PaletteIsPrefix | src/main/java/online/demonzdevelopment/util/ColorUtil.java:78-97 | the sixteen colours with RGB values are the first sixteen `ChatColor` values |
| Colors.FirstMin | src/main/java/online/demonzdevelopment/util/ColorUtil.java:59-70 | the earliest palette index at minimal distance |
| Colors.FirstMinUnique | src/main/java/online/demonzdevelopment/util/ColorUtil.java:59-70 | that index is unique |
| Colors.GetClosestColor | src/main/java/online/demonzdevelopment/util/ColorUtil.java:54-72 | the scan returns the earliest nearest colour of the palette |
| Colors.ClosestOfTableColor | src/main/java/online/demonzdevelopment/util/ColorUtil.java:54-97 | a colour of the table maps back to itself |
| Colors.DecodeHex | src/main/java/online/demonzdevelopment/util/ColorUtil.java:55 | six hex digits decode to a valid RGB value |
| Colors.HexPiece | src/main/java/online/demonzdevelopment/util/ColorUtil.java:41-45 | one step of the scan, with the rest converted afterwards |
| Colors.ConvertHexToLegacy | src/main/java/online/demonzdevelopment/util/ColorUtil.java:37-49 | every `&#RRGGBB`, found left to right, becomes the `§` code of its nearest colour |
| Colors.HexToLegacyWithoutTokens | src/main/java/online/demonzdevelopment/util/ColorUtil.java:37-49 | text without a hex token is unchanged |
| Colors.ConvertToLegacy | src/main/java/online/demonzdevelopment/util/ColorUtil.java:24-32 | when MiniMessage fails, the hex conversion |
| Colors.DownsampleToLegacy | src/main/java/online/demonzdevelopment/util/ColorUtil.java:160-165 | null gives ""; otherwise `convertToLegacy` |
| Colors.ChainIsOnePass | src/main/java/online/demonzdevelopment/util/ColorUtil.java:125-146 | the first `n` replaces are one left-to-right pass knowing the first `n` codes |
| Colors.TranslateLegacyToMiniMessage | src/main/java/online/demonzdevelopment/util/ColorUtil.java:124-147 | the 22 chained replaces equal a single left-to-right pass that rewrites each `&` code |
| Colors.TranslateKeepsTextWithoutCodes | src/main/java/online/demonzdevelopment/util/ColorUtil.java:124-147 | text where no `&` is followed by a code is unchanged |
| Colors.TranslateCodeThenText | src/main/java/online/demonzdevelopment/util/ColorUtil.java:124-147 | a code followed by code-free text becomes the tag followed by that text |
| Colors.UpperCaseIsNoCode | src/main/java/online/demonzdevelopment/util/ColorUtil.java:125-146 | upper-case letters are not codes: `&A` stays |
| Colors.DownsampleToLegacySimple | src/main/java/online/demonzdevelopment/util/ColorUtil.java:170-219 | null gives ""; text without `<` is unchanged; no tag is left |
| Colors.DownsampleTagThenText | src/main/java/online/demonzdevelopment/util/ColorUtil.java:170-219 | a closed tag at the front is rewritten by the first stage that matches it, independently of the text after it |
| Colors.DownsampleHexTags | src/main/java/online/demonzdevelopment/util/ColorUtil.java:174-175 | `<#rrggbb>` and `</#rrggbb>` are removed |
| Colors.DownsampleGradient | src/main/java/online/demonzdevelopment/util/ColorUtil.java:178 | `<gradient:…>` becomes `§f` |
| Colors.DownsampleGradientClose | src/main/java/online/demonzdevelopment/util/ColorUtil.java:179 | `</gradient>` becomes `§r` |
| Colors.DownsampleRainbow | src/main/java/online/demonzdevelopment/util/ColorUtil.java:182 | `<rainbow>` becomes `§b` |
| Colors.DownsampleRainbowClose | src/main/java/online/demonzdevelopment/util/ColorUtil.java:183 | `</rainbow>` becomes `§r` |
| Colors.DownsampleFormatTag | src/main/java/online/demonzdevelopment/util/ColorUtil.java:186-195 | each of the ten format tags becomes its legacy code (`§l`, `§o`, `§n`, `§m`, `§k`) or `§r` |
| Colors.DownsampleColorTag | src/main/java/online/demonzdevelopment/util/ColorUtil.java:198-213 | each of the sixteen colour tags becomes its legacy code |
| Colors.DownsampleOtherTag | src/main/java/online/demonzdevelopment/util/ColorUtil.java:216 | any other tag is removed |
| Colors.StripTagsKeepsChars | src/main/java/online/demonzdevelopment/util/ColorUtil.java:216 | removing tags adds no character |
| Colors.StripTagsLeavesNone | src/main/java/online/demonzdevelopment/util/ColorUtil.java:216 | after the last `replaceAll("<[^>]+>", "")` no tag remains |
| TimeFormat.FormatTime | src/main/java/online/demonzdevelopment/util/TimeUtil.java:13-28 | the last unit shown is hours from one day on, minutes from one hour on, else seconds |
| TimeFormat.FormatDays | src/main/java/online/demonzdevelopment/util/TimeUtil.java:13-20 | from a day on: the whole days and the hours left over |
| TimeFormat.FormatHours | src/main/java/online/demonzdevelopment/util/TimeUtil.java:13-22 | from an hour until a day: hours and minutes left over |
| TimeFormat.FormatMinutes | src/main/java/online/demonzdevelopment/util/TimeUtil.java:13-24 | from a minute until an hour: minutes and seconds left over |
| TimeFormat.FormatSecondsOnly | src/main/java/online/demonzdevelopment/util/TimeUtil.java:13-27 | under a minute: whole seconds, milliseconds dropped |
| TimeFormat.FormatNegative | src/main/java/online/demonzdevelopment/util/TimeUtil.java:13-27 | a negative duration prints its seconds truncated toward zero |
| TimeFormat.FormatSeconds | src/main/java/online/demonzdevelopment/util/TimeUtil.java:33-35 | `formatTime` of the milliseconds while the `long` product does not wrap |
| Performance.StartKey | src/main/java/online/demonzdevelopment/util/PerformanceMonitor.java:20-27 | the key is the thread name, `_`, and the feature |
| Performance.StartKeyAmbiguous | src/main/java/online/demonzdevelopment/util/PerformanceMonitor.java:20-27 | the key cannot tell thread `a_b` timing `c` from thread `a` timing `b_c` |
| Performance.PerformanceMonitor.constructor | src/main/java/online/demonzdevelopment/util/PerformanceMonitor.java:12-14 | all three maps start empty |
| Performance.PerformanceMonitor.StartTiming | src/main/java/online/demonzdevelopment/util/PerformanceMonitor.java:19-21 | records (or overwrites) the start time; the totals are untouched |
| Performance.PerformanceMonitor.StopTiming | src/main/java/online/demonzdevelopment/util/PerformanceMonitor.java:26-34 | without a pending start nothing changes; otherwise the start is removed, the duration is added to the total and the call count goes up by one |
| Performance.PerformanceMonitor.TotalCalls | src/main/java/online/demonzdevelopment/util/PerformanceMonitor.java:62-64 | the count, 0 for an unknown feature |
| Performance.PerformanceMonitor.TotalNanos | src/main/java/online/demonzdevelopment/util/PerformanceMonitor.java:51-57 | the total, 0 for an unknown feature |
| Performance.PerformanceMonitor.AverageNanos | src/main/java/online/demonzdevelopment/util/PerformanceMonitor.java:39-46 | 0 without data, else the total divided by the count |
| Performance.PerformanceMonitor.GetAllStats | src/main/java/online/demonzdevelopment/util/PerformanceMonitor.java:69-79 | one entry for each feature with a total, holding its statistics |
| Performance.PerformanceMonitor.Reset | src/main/java/online/demonzdevelopment/util/PerformanceMonitor.java:84-88 | all three maps are emptied |
| Performance.TwoThreadsShareTotals | src/main/java/online/demonzdevelopment/util/PerformanceMonitor.java:26-34 | two threads timing one feature add to one total |
| Versions.ParseVersionPartAsWritten | src/main/java/online/demonzdevelopment/util/UpdateChecker.java:326-334 | the digits before the first `-` as an `int`, 0 when they are not a number, an index error when nothing precedes it |
| Versions.ParseVersionPart | src/main/java/online/demonzdevelopment/util/UpdateChecker.java:326-334 | the corrected part value is an `int` and agrees with the written one whenever that one returns |
| Versions.DashPartThrows | src/main/java/online/demonzdevelopment/util/UpdateChecker.java:329 | `-` throws as written and reads as 0 corrected |
| Versions.SuffixIgnored | src/main/java/online/demonzdevelopment/util/UpdateChecker.java:329-330 | `12-SNAPSHOT` reads as 12 |
| Versions.CompareFrom | src/main/java/online/demonzdevelopment/util/UpdateChecker.java:310-320 | the loop's result is -1, 0 or 1 |
| Versions.CompareVersions | src/main/java/online/demonzdevelopment/util/UpdateChecker.java:302-321 | the result is -1, 0 or 1 |
| Versions.CompareFromIsFirstDifference | src/main/java/online/demonzdevelopment/util/UpdateChecker.java:310-320 | 0 iff all components agree; otherwise the sign at the first differing component |
| Versions.CompareFromAntisymmetric | src/main/java/online/demonzdevelopment/util/UpdateChecker.java:310-320 | swapping the sides negates the result |
| Versions.CompareFromTransitive | src/main/java/online/demonzdevelopment/util/UpdateChecker.java:310-320 | "not newer" is transitive |
| Versions.CompareFromPadded | src/main/java/online/demonzdevelopment/util/UpdateChecker.java:310-313 | comparing past both lengths changes nothing: zero padding |
| Versions.CompareFromReflexive | src/main/java/online/demonzdevelopment/util/UpdateChecker.java:310-320 | a list compares equal to itself |
| Versions.CompareVersionsReflexive | src/main/java/online/demonzdevelopment/util/UpdateChecker.java:302-321 | a version compares equal to itself |
| Versions.CompareVersionsAntisymmetric | src/main/java/online/demonzdevelopment/util/UpdateChecker.java:302-321 | swapping the sides negates the result |
| Versions.CompareVersionsTransitive | src/main/java/online/demonzdevelopment/util/UpdateChecker.java:302-321 | "not newer" is transitive |
| Versions.StripV | src/main/java/online/demonzdevelopment/util/UpdateChecker.java:304-305 | exactly one leading `v` is dropped, and only when present |
| Versions.LeadingVIgnored | src/main/java/online/demonzdevelopment/util/UpdateChecker.java:304-305 | a single leading `v` makes no difference |
| Versions.FindRelease | src/main/java/online/demonzdevelopment/util/UpdateChecker.java:278-284 | the first release whose tag is the version, with or without `v`, ignoring case; none iff no release matches |
| Versions.LatestRelease | src/main/java/online/demonzdevelopment/util/UpdateChecker.java:137-140 | the first stable release, else the first release |
| Versions.Stable | src/main/java/online/demonzdevelopment/util/UpdateChecker.java:340-341 | exactly the releases that are not prereleases |
| Versions.NewerOrSameIsPreorder | src/main/java/online/demonzdevelopment/util/UpdateChecker.java:342 | the sort's comparator is a total preorder |
| Versions.RelativeFrom | src/main/java/online/demonzdevelopment/util/UpdateChecker.java:345-355 | the neighbour at the first matching position that has one, else none |
| Versions.RelativeVersion | src/main/java/online/demonzdevelopment/util/UpdateChecker.java:339-356 | a found version is a stable release of the list, and only `next` or `previous` finds one |
| Versions.NeighbourDirection | src/main/java/online/demonzdevelopment/util/UpdateChecker.java:347-351 | in the newest-first list, `next` is not older and `previous` is not newer than the current version |
| Versions.RelativeVersionDirection | src/main/java/online/demonzdevelopment/util/UpdateChecker.java:339-356 | `next` is a stable release at least as new as the current version, `previous` one at most as new |
| Versions.UpdateChecker.constructor | src/main/java/online/demonzdevelopment/util/UpdateChecker.java:34-43 | no latest version, no update, no releases |
| Versions.UpdateChecker.CheckForUpdates | src/main/java/online/demonzdevelopment/util/UpdateChecker.java:77-162 | the list is replaced by what was fetched; with releases, the latest release is recorded and an update is reported iff it compares newer |
| TabSorting.RuleWeight | src/main/java/online/demonzdevelopment/managers/SortingManager.java:42-50 | a rule throws iff it is a `GROUP` rule without a user or without weights; otherwise it adds its group weight times 1000 (32-bit), or 0 |
| TabSorting.Priority | src/main/java/online/demonzdevelopment/managers/SortingManager.java:32-54 | without a custom priority: fails iff some rule throws, else the 32-bit sum of the contributions |
| TabSorting.CustomPriorityWins | src/main/java/online/demonzdevelopment/managers/SortingManager.java:34-36 | a custom priority is returned without consulting the rules |
| TabSorting.RulePriorityIsSum | src/main/java/online/demonzdevelopment/managers/SortingManager.java:40-53 | the loop throws iff some `GROUP` rule lacks a user or weights; otherwise it gives the sum of weight times 1000, wrapped to 32 bits |
| TabSorting.NoGroupRulesGiveZero | src/main/java/online/demonzdevelopment/managers/SortingManager.java:42-50 | rules other than `GROUP` add nothing |
| TabSorting.FailureStops | src/main/java/online/demonzdevelopment/managers/SortingManager.java:42-51 | once a rule has thrown, the whole loop has |
| TabSorting.ComparePlayers | src/main/java/online/demonzdevelopment/managers/SortingManager.java:76-86 | higher priority first; equal priorities compare names ignoring case |
| TabSorting.SortsBeforeIsPreorder | src/main/java/online/demonzdevelopment/managers/SortingManager.java:76-86 | `compare` is a total preorder: priority descending, then name ignoring case |
| TabSorting.SortingManager.constructor | src/main/java/online/demonzdevelopment/managers/SortingManager.java:16 | no custom priorities |
| TabSorting.SortingManager.GetSortingPriority | src/main/java/online/demonzdevelopment/managers/SortingManager.java:32-54 | the loop computes the specified priority, or its exception |
| TabSorting.SortingManager.SetSortingPriority | src/main/java/online/demonzdevelopment/managers/SortingManager.java:59-61 | overwrites the player's entry |
| TabSorting.SortingManager.Compare | src/main/java/online/demonzdevelopment/managers/SortingManager.java:76-86 | fails iff a priority does; otherwise the comparison of the two priorities |
| TabSorting.SortingManager.GetSortedPlayers | src/main/java/online/demonzdevelopment/managers/SortingManager.java:91-95 | fails iff two or more players are online and some priority throws; otherwise a permutation, priority descending, then by name |
| TabSorting.SortingManager.Reload | src/main/java/online/demonzdevelopment/managers/SortingManager.java:100-109 | every custom priority is dropped |
| Sort.InsertSorted | src/main/java/online/demonzdevelopment/managers/SortingManager.java:93 | inserting into a sorted list keeps it sorted and adds exactly the element |
| Sort.SortBySorted | src/main/java/online/demonzdevelopment/managers/SortingManager.java:93 | under a total preorder, the sort gives a sorted permutation |
| Sort.SortByMembers | src/main/java/online/demonzdevelopment/util/UpdateChecker.java:342 | the sort keeps exactly the elements it was given |
| NameTags.Resolve | src/main/java/online/demonzdevelopment/managers/NameTagManager.java:83-104 | a missing LuckPerms user throws `NullPointerException`; otherwise it fails iff the placeholder replacement of the chosen text fails |
| NameTags.GroupEntryWins | src/main/java/online/demonzdevelopment/managers/NameTagManager.java:86-90 | a configured group wins even with empty text; any other group gets the global text |
| NameTags.Truncate | src/main/java/online/demonzdevelopment/managers/NameTagManager.java:127-128 | a prefix of at most 16 characters, equal to the input iff that is short enough |
| NameTags.TruncateIdempotent | src/main/java/online/demonzdevelopment/managers/NameTagManager.java:127-128 | truncating twice is truncating once |
| NameTags.TeamName | src/main/java/online/demonzdevelopment/managers/NameTagManager.java:116 | the player's name behind a four-character prefix |
| NameTags.TeamNameInjective | src/main/java/online/demonzdevelopment/managers/NameTagManager.java:116 | distinct players get distinct teams |
| NameTags.ApplyToBoard | src/main/java/online/demonzdevelopment/managers/NameTagManager.java:116-135 | the player's team exists, carries the truncated legacy texts and lists the player; no other team changes |
| NameTags.ApplyIdempotent | src/main/java/online/demonzdevelopment/managers/NameTagManager.java:109-136 | applying the same tag twice is applying it once |
| NameTags.NameTagManager.constructor | src/main/java/online/demonzdevelopment/managers/NameTagManager.java:25 | empty cache |
| NameTags.NameTagManager.ApplyNameTag | src/main/java/online/demonzdevelopment/managers/NameTagManager.java:109-136 | the player's board becomes `ApplyToBoard` of their board |
| NameTags.NameTagManager.UpdateNameTag | src/main/java/online/demonzdevelopment/managers/NameTagManager.java:59-78 | fails iff the prefix or the suffix fails to resolve, with the first exception, and then nothing changes; otherwise the resolved tag is applied and cached |
| NameTags.NameTagManager.SetPrefix | src/main/java/online/demonzdevelopment/managers/NameTagManager.java:141-146 | the cached suffix ("" if none) is kept with the new prefix |
| NameTags.NameTagManager.SetSuffix | src/main/java/online/demonzdevelopment/managers/NameTagManager.java:151-156 | the cached prefix ("" if none) is kept with the new suffix |
| NameTags.NameTagManager.Reload | src/main/java/online/demonzdevelopment/managers/NameTagManager.java:161-177 | the cache is emptied |
| NameTags.SetBoth | src/main/java/online/demonzdevelopment/managers/NameTagManager.java:141-156 | `setPrefix` then `setSuffix` caches and shows both, whatever was there before |
| Scoreboard.ScoreboardFor | src/main/java/online/demonzdevelopment/managers/ScoreboardManager.java:87-97 | the world's assignment, else `default` |
| Scoreboard.Rendered | src/main/java/online/demonzdevelopment/managers/ScoreboardManager.java:114-115 | one entry per configured line, in order |
| Scoreboard.PlacedKeys | src/main/java/online/demonzdevelopment/managers/ScoreboardManager.java:113-116 | exactly the placed lines are on the sidebar |
| Scoreboard.PlacedCount | src/main/java/online/demonzdevelopment/managers/ScoreboardManager.java:113-116 | no more entries than placements |
| Scoreboard.Placed | src/main/java/online/demonzdevelopment/managers/ScoreboardManager.java:113-116 | every score lies in the range of the placements |
| Scoreboard.PlacedScore | src/main/java/online/demonzdevelopment/managers/ScoreboardManager.java:113-116 | line `i` scores `size - i`, or less when the same text comes again later |
| Scoreboard.DistinctLinesDecrease | src/main/java/online/demonzdevelopment/managers/ScoreboardManager.java:113-116 | distinct lines have strictly decreasing scores |
| Scoreboard.PlaceLines | src/main/java/online/demonzdevelopment/managers/ScoreboardManager.java:112-116 | the loop places the first 15 lines as specified |
| Scoreboard.SidebarBounds | src/main/java/online/demonzdevelopment/managers/ScoreboardManager.java:113-115 | at most 15 entries, each scored between 1 and the number of lines |
| Scoreboard.SidebarOf | src/main/java/online/demonzdevelopment/managers/ScoreboardManager.java:106-116 | the sidebar: the title through PlaceholderAPI, at most 15 entries, scores between 1 and the number of lines, and every one of the first 15 lines present |
| Scoreboard.ScoreboardManager.constructor | src/main/java/online/demonzdevelopment/managers/ScoreboardManager.java:23-24 | nothing shown |
| Scoreboard.ScoreboardManager.ShowScoreboard | src/main/java/online/demonzdevelopment/managers/ScoreboardManager.java:102-120 | an unknown id does nothing; otherwise the player's board becomes the sidebar of that scoreboard and the id is recorded |
| Scoreboard.ScoreboardManager.HideScoreboard | src/main/java/online/demonzdevelopment/managers/ScoreboardManager.java:125-128 | a blank board, and the record removed |
| Scoreboard.ScoreboardManager.UpdateScoreboard | src/main/java/online/demonzdevelopment/managers/ScoreboardManager.java:68-82 | toggled off or an unknown id: nothing changes; otherwise the player gets the sidebar of their world's scoreboard and that id is recorded |
| Scoreboard.ScoreboardManager.ToggleScoreboard | src/main/java/online/demonzdevelopment/managers/ScoreboardManager.java:133-142 | the toggle flips; off hides; on shows the sidebar of the world's scoreboard, or changes nothing for an unknown id |
| Scoreboard.ScoreboardManager.Reload | src/main/java/online/demonzdevelopment/managers/ScoreboardManager.java:147-155 | the scoreboards are reloaded and the records cleared |
| Scoreboard.ScoreboardManager.Shutdown | src/main/java/online/demonzdevelopment/managers/ScoreboardManager.java:160-171 | every online player gets a blank board, others keep theirs, no other player gains a board, and both maps are cleared |
| Bossbar.ColorOf | src/main/java/online/demonzdevelopment/managers/BossbarManager.java:147-153 | a colour other than `GREEN` is chosen only by its own name, in any case |
| Bossbar.ColorOfName | src/main/java/online/demonzdevelopment/managers/BossbarManager.java:147-153 | every colour is found by its name in any case |
| Bossbar.ColorFallback | src/main/java/online/demonzdevelopment/managers/BossbarManager.java:147-153 | any other name gives `GREEN` |
| Bossbar.OverlayOf | src/main/java/online/demonzdevelopment/managers/BossbarManager.java:158-166 | a segmented overlay is chosen only by its own style name, in any case |
| Bossbar.OverlayOfStyle | src/main/java/online/demonzdevelopment/managers/BossbarManager.java:158-166 | each `SEGMENTED_n` style selects its overlay in any case |
| Bossbar.OverlayFallback | src/main/java/online/demonzdevelopment/managers/BossbarManager.java:158-166 | every other style gives `PROGRESS` |
| Bossbar.LoadBars | src/main/java/online/demonzdevelopment/managers/BossbarManager.java:40-52 | one bar per configured id, built from its data |
| Bossbar.UpdateStep | src/main/java/online/demonzdevelopment/managers/BossbarManager.java:81-91 | one iteration keeps "each bar seen so far is shown iff wanted, everything else unchanged" |
| Bossbar.BossbarManager.constructor | src/main/java/online/demonzdevelopment/managers/BossbarManager.java:20-35 | the bars loaded, nothing shown |
| Bossbar.BossbarManager.ShowBossbar | src/main/java/online/demonzdevelopment/managers/BossbarManager.java:97-105 | an unknown id does nothing; otherwise the bar is shown and recorded |
| Bossbar.BossbarManager.HideBossbar | src/main/java/online/demonzdevelopment/managers/BossbarManager.java:110-121 | an unknown id does nothing; otherwise the bar is hidden and its record removed |
| Bossbar.BossbarManager.SetShown | src/main/java/online/demonzdevelopment/managers/BossbarManager.java:86-90 | the bar is shown iff wanted; nothing else changes |
| Bossbar.BossbarManager.UpdateBossbars | src/main/java/online/demonzdevelopment/managers/BossbarManager.java:74-92 | toggled off: nothing; otherwise each loaded bar is shown iff its conditions hold, and nothing else changes |
| Bossbar.BossbarManager.HideAll | src/main/java/online/demonzdevelopment/managers/BossbarManager.java:132-137 | every loaded bar recorded for the player is hidden and unrecorded; other players are untouched |
| Bossbar.BossbarManager.ToggleBossbar | src/main/java/online/demonzdevelopment/managers/BossbarManager.java:126-142 | the toggle flips; off hides and unrecords every recorded loaded bar, on shows and records each loaded bar iff wanted; other players and untouched bars keep their state |
| Bossbar.BossbarManager.Reload | src/main/java/online/demonzdevelopment/managers/BossbarManager.java:171-179 | the bars are rebuilt and the records cleared |
| Bossbar.BossbarManager.Shutdown | src/main/java/online/demonzdevelopment/managers/BossbarManager.java:184-201 | every recorded loaded bar of an online player is hidden, every other (player, bar) pair keeps its visibility, then both maps are cleared |

## Left out

- I/O and services: YAML files, SQL toggles, HTTP, JSON and jar handling are
  not modelled. Their results are parameters: sections, toggles and fetched
  releases.
- `UpdateChecker.downloadAndInstall`, `notifyUpdate`, `notifyPlayerJoin`,
  `start`/`stop` and `getPluginJar`: they are network, file and messaging work.
- Scheduling: `runTask`, `runTaskTimer` and the async futures are treated as
  running at once, in order. No concurrency is modelled.
- MiniMessage deserialisation and `ColorUtil.parseComponent` are abstract.
  A parsed line is the node `Parsed(text)`, and `convertToLegacy` takes the
  serialiser as a `string -> Option<string>` parameter.
- `ColorUtil.stripColor` is an abstract parameter (`strip`) of
  PlaceholderUtil.ParseNumericPlaceholder; its regular expression is not modelled.
- `ConditionUtil.evaluateNumericCondition` (the MOTD `player-count:` check):
  its text is not part of this model, so the verdict is a parameter of `Server`.
- `Double.parseDouble` is a parameter `string -> Option<real>`. Floating-point
  rounding is not modelled.
- `MotdConfig.loadSettings` defaults are not modelled: the settings are given as a value.
- Random rotation: the model only states that the choice is a candidate, with
  the draw as a parameter.
- `SortingManager.updateSorting` only calls `TablistFormatManager`, which is
  not part of this model.
- Nametag team options (visibility, collisions) are not modelled: the source does not set them.
- Performance.PerformanceMonitor.AverageNanos: times stay in integer
  nanoseconds; the division by 1 000 000.0 to milliseconds (a `double`) is left out.
- Performance.PerformanceMonitor.StopTiming: the `long` call count is a
  natural number in the model; it would wrap only after 2^63 calls. The
  durations and their sum do wrap as `long` values.
- Condition.CompareLeaf: `equalsIgnoreCase` and all case mapping are ASCII-only.
- Colors.ConvertToLegacy: only the fallback branch is specified, because the
  legacy serialiser is abstract.
- Sort.SortBySorted: stability of `List.sort` is not stated, only sortedness
  and permutation.
- HeaderFooter.Resolve: the LuckPerms user is assumed present, so `group` is a
  string. The `NullPointerException` for a missing user, which
  `updateHeaderFooter` catches and logs, is not modelled there. NameTags and
  TabSorting do model it.
- Bossbar.BossbarManager.Reload: visibility is keyed by bar id, so bars shown
  before a reload are not separately tracked as orphaned `BossBar` objects.
- NameTags.NameTagManager.ApplyNameTag: the player's board is their own board,
  or a new empty one standing for "replace the main scoreboard". Scoreboard
  objects are not shared between players.
- NameTags.NameTagManager.ApplyNameTag, Scoreboard.ScoreboardManager.ShowScoreboard
  and Scoreboard.ScoreboardManager.HideScoreboard: in the plugin both managers
  work on the same object, `player.getScoreboard()`. The model gives each
  manager its own `boards` map, so it does not capture that aliasing. Showing
  or hiding a sidebar installs a fresh scoreboard and so drops the `dzt_<name>`
  team; applying a nametag to a player who has a sidebar registers the team on
  the sidebar's board. In the model the nametag board keeps its team across a
  sidebar show or hide.
- NameTags.NameTagManager.UpdateNameTag: `render` stands for the player's
  `PlaceholderUtil.replacePlaceholders` and may fail as that does. The
  animation frames that replacement advances are modelled by
  Placeholders.PlaceholderManager.Replace, not here.
- MotdConfig.LoadEntry: YAML frame values that are not strings (which would
  throw `ClassCastException`) are not modelled.
- Text lengths count characters, not UTF-16 code units.
- Motd.Pick: the sequential branch uses the corrected Motd.SequentialPick. As
  written, once `rotationIndex` has wrapped negative, `get` throws; the ping
  handler catches and logs it and leaves the ping unchanged, and the counter
  never advances again. That path is shown only by Motd.SequentialOverflow.
- Motd.MotdManager.GetBestMotd: the same as Motd.Pick; the stuck negative
  counter of the as-written code is not reproduced.
- Versions.CompareVersions: built on the corrected Versions.ParseVersionPart,
  so it does not throw for a part such as `-`, as the source does.
- Versions.UpdateChecker.CheckForUpdates: it uses the corrected comparison. As
  written, a latest tag such as `1.-` makes `compareVersions` throw after
  `latestVersion` and `downloadUrl` are set; the `catch` then leaves
  `updateAvailable` as it was. The model sets it by the corrected comparison.

## Findings

| source | as written | input that shows it | evidently intended | confidence | as-written member | corrected member |
|---|---|---|---|---|---|---|
| src/main/java/online/demonzdevelopment/managers/MotdManager.java:152-153 | `validMotds.get(rotationIndex % validMotds.size())` with `rotationIndex++` on an `int` | after 2^31 sequential pings `rotationIndex` wraps to `-2147483648`; with 3 candidates `%` gives `-2`, and `get(-2)` throws; the handler catches and logs it, and every later ping fails the same way | a rotation that keeps cycling, e.g. `Math.floorMod` | not executed | Motd.SequentialPickAsWritten (shown by Motd.SequentialOverflow) | Motd.SequentialPick |
| src/main/java/online/demonzdevelopment/util/UpdateChecker.java:329 | `part.split("-")[0]`, inside a `try` that only catches `NumberFormatException` | the tag `1.-` gives the part `-`; `"-".split("-")` is empty, so `[0]` throws `ArrayIndexOutOfBoundsException` out of `compareVersions` | a part without a leading number counts as 0 | not executed | Versions.ParseVersionPartAsWritten (shown by Versions.DashPartThrows) | Versions.ParseVersionPart |
