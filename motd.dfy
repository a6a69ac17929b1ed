/** `MotdManager`: which MOTD entry answers a server-list ping, the
    conditions an entry may carry, the lines it shows and the player counts
    the ping reports. */
module Motd {
  import opened Wrappers
  import opened Strings
  import opened Colors
  import opened MotdConfig

  // ---------------------------------------------------------------------
  // The clock and the server, as the ping sees them
  // ---------------------------------------------------------------------

  datatype DayOfWeek = Monday | Tuesday | Wednesday | Thursday | Friday | Saturday | Sunday

  /** `DayOfWeek.name().toLowerCase()`. */
  function DayName(d: DayOfWeek): string {
    match d
    case Monday => "monday"
    case Tuesday => "tuesday"
    case Wednesday => "wednesday"
    case Thursday => "thursday"
    case Friday => "friday"
    case Saturday => "saturday"
    case Sunday => "sunday"
  }

  datatype Date = Date(year: int, month: int, day: int)

  /** `LocalTime.now()` as nanoseconds of the day, `LocalDate.now()` and its
      day of the week. */
  datatype Clock = Clock(time: int, today: Date, weekday: DayOfWeek)

  /** What the server supplies: `getOnlinePlayers().size()`, `getMaxPlayers()`,
      PlaceholderAPI's `setPlaceholders(null, ·)` when that plugin is enabled,
      the MiniMessage parse the colour downsampling uses, and the
      `player-count:` test, whose evaluator is not part of this model. */
  datatype Server = Server(
    online: int,
    maxPlayers: int,
    papi: Option<string -> string>,
    mini: string -> Option<string>,
    playerCount: string -> bool)

  // ---------------------------------------------------------------------
  // Time windows: `time:HH:mm-HH:mm`
  // ---------------------------------------------------------------------

  const NANOS_PER_MINUTE: int := 60_000_000_000
  const NANOS_PER_DAY: int := 24 * 60 * NANOS_PER_MINUTE

  /** Two ASCII digits at `i`, as `DateTimeFormatter` reads a two-letter field. */
  function TwoDigits(s: string, i: nat): (r: Option<nat>)
    requires i + 2 <= |s|
    ensures r.Some? ==> r.value < 100
  {
    if IsDigit(s[i]) && IsDigit(s[i + 1])
    then Some(10 * ((s[i] as int) - ('0' as int)) + ((s[i + 1] as int) - ('0' as int)))
    else None
  }

  /** `LocalTime.parse(s, ofPattern("HH:mm"))` in nanoseconds of the day:
      exactly two digits, a colon and two digits; minutes up to 59, hours up
      to 23, and `24:00`, which the default resolver reads as midnight. */
  function ParseTime(s: string): (r: Option<int>)
    ensures r.Some? ==> 0 <= r.value < NANOS_PER_DAY && r.value % NANOS_PER_MINUTE == 0
  {
    if |s| != 5 || s[2] != ':' then None
    else
      match (TwoDigits(s, 0), TwoDigits(s, 3))
      case (Some(h), Some(m)) =>
        if m > 59 then None
        else if h <= 23 then Some((h * 60 + m) * NANOS_PER_MINUTE)
        else if h == 24 && m == 0 then Some(0)
        else None
      case _ => None
  }

  /** A value below 100 as two digits, as `HH` and `mm` print it. */
  function Pad2(v: nat): string
    requires v < 100
  {
    [DigitChar(v / 10), DigitChar(v % 10)]
  }

  /** Parsing reads back every printed time of day. */
  lemma ParseTimeOfPrinted(h: nat, m: nat)
    requires h < 24 && m < 60
    ensures ParseTime(Pad2(h) + ":" + Pad2(m)) == Some((h * 60 + m) * NANOS_PER_MINUTE)
  {
    var s := Pad2(h) + ":" + Pad2(m);
    assert s[0] == DigitChar(h / 10) && s[1] == DigitChar(h % 10);
    assert s[3] == DigitChar(m / 10) && s[4] == DigitChar(m % 10);
    assert TwoDigits(s, 0) == Some(h);
    assert TwoDigits(s, 3) == Some(m);
  }

  /** Whether `now` lies in the window from `start` to `end`: between them
      when `start` is before `end`, otherwise (an overnight window, or equal
      ends) at or after `start` or at or before `end`. */
  function InTimeWindow(start: int, end: int, now: int): (b: bool)
    ensures start == end ==> b
    ensures start > end ==> (b <==> !(end < now < start))
    ensures start < end ==> (b <==> !(now < start || end < now))
  {
    if start < end then start <= now <= end else now >= start || now <= end
  }

  /** The two ends of a `time:` range, or `None` where Java throws or the
      range does not split into two parts. */
  function TimeWindow(range: string): (r: Option<(int, int)>)
    ensures r.Some? ==> |Split(range, "-")| == 2
  {
    var parts := Split(range, "-");
    if |parts| != 2 then None
    else
      match (ParseTime(Trim(parts[0])), ParseTime(Trim(parts[1])))
      case (Some(s), Some(e)) => Some((s, e))
      case _ => None
  }

  /** `checkTimeCondition(range)`: false for a malformed range, otherwise
      whether the clock lies in the window. */
  function TimeCondition(range: string, now: int): (r: bool)
    ensures r <==> TimeWindow(range).Some? && InTimeWindow(TimeWindow(range).value.0, TimeWindow(range).value.1, now)
  {
    match TimeWindow(range)
    case None => false
    case Some((s, e)) => InTimeWindow(s, e, now)
  }

  // ---------------------------------------------------------------------
  // Date windows: `date:MM/dd-MM/dd`
  // ---------------------------------------------------------------------

  predicate IsLeap(y: int) {
    y % 4 == 0 && (y % 100 != 0 || y % 400 == 0)
  }

  function MonthLength(y: int, month: int): int {
    if month == 2 then (if IsLeap(y) then 29 else 28)
    else if month == 4 || month == 6 || month == 9 || month == 11 then 30
    else 31
  }

  /** A day of the year in date order. */
  function Ordinal(month: int, day: int): int { month * 32 + day }

  /** `LocalDate.parse(year + "/" + s, ofPattern("yyyy/MM/dd"))` as the day's
      ordinal: the year must print in four digits, `s` must be two digits, a
      slash and two digits, the month 1..12 and the day 1..31; a day past the
      end of its month is moved back to the month's last day, as the default
      resolver does. */
  function ParseMonthDay(year: int, s: string): (r: Option<int>)
    ensures r.Some? ==> exists m, d :: 1 <= m <= 12 && 1 <= d <= MonthLength(year, m) && r.value == Ordinal(m, d)
  {
    if !(1000 <= year <= 9999) || |s| != 5 || s[2] != '/' then None
    else
      match (TwoDigits(s, 0), TwoDigits(s, 3))
      case (Some(m), Some(d)) =>
        if 1 <= m <= 12 && 1 <= d <= 31 then
          var d' := if d > MonthLength(year, m) then MonthLength(year, m) else d;
          Some(Ordinal(m, d'))
        else None
      case _ => None
  }

  /** Whether `today` lies in the window: between the ends when the start is
      not after the end, otherwise across the turn of the year. */
  predicate InDateWindow(start: int, end: int, today: int) {
    if start <= end then start <= today <= end else today >= start || today <= end
  }

  function DateWindow(range: string, year: int): (r: Option<(int, int)>)
    ensures r.Some? ==> |Split(range, "-")| == 2
  {
    var parts := Split(range, "-");
    if |parts| != 2 then None
    else
      match (ParseMonthDay(year, Trim(parts[0])), ParseMonthDay(year, Trim(parts[1])))
      case (Some(s), Some(e)) => Some((s, e))
      case _ => None
  }

  /** `checkDateCondition(range)`: false for a malformed range, otherwise
      whether today lies in the window of this year's dates. */
  function DateCondition(range: string, today: Date): (r: bool)
    ensures r <==> (DateWindow(range, today.year).Some? &&
      InDateWindow(DateWindow(range, today.year).value.0, DateWindow(range, today.year).value.1, Ordinal(today.month, today.day)))
  {
    match DateWindow(range, today.year)
    case None => false
    case Some((s, e)) => InDateWindow(s, e, Ordinal(today.month, today.day))
  }

  /** The ordinal keeps date order: an earlier month, or the same month and
      an earlier day, is smaller, so the window compares dates. */
  lemma OrdinalOrdersDates(m1: int, d1: int, m2: int, d2: int)
    requires 1 <= d1 <= 31 && 1 <= d2 <= 31
    ensures Ordinal(m1, d1) < Ordinal(m2, d2) <==> m1 < m2 || (m1 == m2 && d1 < d2)
  {
  }

  /** `02/30` is read as the last day of February, so it names the same day
      as `02/28` (or `02/29` in a leap year). */
  lemma FebruaryClamp(year: int)
    requires 1000 <= year <= 9999
    ensures ParseMonthDay(year, "02/30") == ParseMonthDay(year, if IsLeap(year) then "02/29" else "02/28")
  {
  }

  // ---------------------------------------------------------------------
  // Day lists: `day:monday,friday`
  // ---------------------------------------------------------------------

  /** `checkDayCondition(days)`: whether one of the comma-separated names,
      lower-cased and trimmed, is today's day name. */
  function DayCondition(days: string, weekday: DayOfWeek): (r: bool)
    ensures !Contains(ToLower(days), ",") ==> (r <==> Trim(ToLower(days)) == DayName(weekday))
  {
    var list := Split(ToLower(days), ",");
    assert !Contains(ToLower(days), ",") ==> list[0] == ToLower(days);
    DayListed(list, DayName(weekday))
  }

  /** One of the names, trimmed, is `name`. */
  predicate DayListed(list: seq<string>, name: string) {
    exists i :: 0 <= i < |list| && Trim(list[i]) == name
  }

  /** The names Java's `split` drops are empty, and no day is named "". */
  lemma DayConditionByRawSplit(days: string, weekday: DayOfWeek)
    ensures DayCondition(days, weekday) == DayListed(SplitRaw(ToLower(days), ","), DayName(weekday))
  {
    var low := ToLower(days);
    var raw := SplitRaw(low, ",");
    if !Contains(low, ",") {
      SplitRawWithout(low, ',');
    } else {
      var kept := DropTrailingEmpty(raw);
      if DayListed(raw, DayName(weekday)) {
        var i :| 0 <= i < |raw| && Trim(raw[i]) == DayName(weekday);
        assert raw[i] != "";
        assert i < |kept| && kept[i] == raw[i];
      }
    }
  }

  /** A name is listed in two lists joined iff it is listed in one of them. */
  lemma DayListedAppend(ps: seq<string>, qs: seq<string>, name: string)
    ensures DayListed(ps + qs, name) == (DayListed(ps, name) || DayListed(qs, name))
  {
    if DayListed(ps + qs, name) {
      var i :| 0 <= i < |ps + qs| && Trim((ps + qs)[i]) == name;
      if i < |ps| { assert Trim(ps[i]) == name; } else { assert Trim(qs[i - |ps|]) == name; }
    }
    if DayListed(ps, name) {
      var i :| 0 <= i < |ps| && Trim(ps[i]) == name;
      assert (ps + qs)[i] == ps[i];
    }
    if DayListed(qs, name) {
      var i :| 0 <= i < |qs| && Trim(qs[i]) == name;
      assert (ps + qs)[|ps| + i] == qs[i];
    }
  }

  /** `a,b` names today exactly when `a` or `b` does: each comma of the text
      separates the names independently of what stands on either side. */
  lemma DayConditionOfList(a: string, b: string, weekday: DayOfWeek)
    ensures DayCondition(a + "," + b, weekday) == (DayCondition(a, weekday) || DayCondition(b, weekday))
  {
    var la, lb := ToLower(a), ToLower(b);
    assert ToLower(a + "," + b) == la + [','] + lb;
    SplitRawConcat(la, ',', lb);
    DayConditionByRawSplit(a + "," + b, weekday);
    DayConditionByRawSplit(a, weekday);
    DayConditionByRawSplit(b, weekday);
    DayListedAppend(SplitRaw(la, ","), SplitRaw(lb, ","), DayName(weekday));
  }

  /** The day names are matched without regard to case: `FRIDAY` and
      `Friday` name the same day as `friday`. */
  lemma DayConditionIgnoresCase(days: string, weekday: DayOfWeek)
    ensures DayCondition(ToUpper(days), weekday) == DayCondition(days, weekday)
  {
    var u := ToUpper(days);
    forall i | 0 <= i < |days| ensures ToLower(u)[i] == ToLower(days)[i] {
      LowerOfUpper(days[i]);
    }
    assert ToLower(u) == ToLower(days);
  }

  // ---------------------------------------------------------------------
  // Conditions of an entry
  // ---------------------------------------------------------------------

  /** `checkSingleCondition(condition)`: on the trimmed text, `player-count:`,
      `time:`, `day:` and `date:` dispatch to their checks on the trimmed
      rest; `permission:`, `placeholder:` and `world:` cannot be checked in a
      ping and hold, as does any other text. */
  function CheckSingleCondition(condition: string, server: Server, clock: Clock): (r: bool)
    ensures !r ==> var c := Trim(condition);
      StartsWith(c, "player-count:") || StartsWith(c, "time:") || StartsWith(c, "day:") || StartsWith(c, "date:")
  {
    var c := Trim(condition);
    if StartsWith(c, "player-count:") then server.playerCount(Trim(c[13..]))
    else if StartsWith(c, "time:") then TimeCondition(Trim(c[5..]), clock.time)
    else if StartsWith(c, "day:") then DayCondition(Trim(c[4..]), clock.weekday)
    else if StartsWith(c, "date:") then DateCondition(Trim(c[5..]), clock.today)
    else true
  }

  /** Each checked prefix reaches its own check on the trimmed rest. */
  lemma ConditionDispatch(condition: string, server: Server, clock: Clock)
    ensures var c := Trim(condition);
      (StartsWith(c, "player-count:") ==> CheckSingleCondition(condition, server, clock) == server.playerCount(Trim(c[13..]))) &&
      (StartsWith(c, "time:") ==> CheckSingleCondition(condition, server, clock) == TimeCondition(Trim(c[5..]), clock.time)) &&
      (StartsWith(c, "day:") ==> CheckSingleCondition(condition, server, clock) == DayCondition(Trim(c[4..]), clock.weekday)) &&
      (StartsWith(c, "date:") ==> CheckSingleCondition(condition, server, clock) == DateCondition(Trim(c[5..]), clock.today))
  {
    var c := Trim(condition);
    if StartsWith(c, "time:") || StartsWith(c, "day:") || StartsWith(c, "date:") {
      assert c[0] != 'p';
      assert !StartsWith(c, "player-count:");
    }
    if StartsWith(c, "day:") || StartsWith(c, "date:") {
      assert !StartsWith(c, "time:");
    }
    if StartsWith(c, "date:") {
      assert c[..4] == "date";
      assert !StartsWith(c, "day:");
    }
  }

  /** `checkConditions(motd)`: every condition holds (vacuously for none). */
  predicate ConditionsHold(conditions: seq<string>, server: Server, clock: Clock) {
    forall i :: 0 <= i < |conditions| ==> CheckSingleCondition(conditions[i], server, clock)
  }

  /** An entry that may answer: enabled, and all its conditions hold. */
  predicate Eligible(e: MotdEntry, server: Server, clock: Clock)
    reads e
  {
    e.enabled && ConditionsHold(e.conditions, server, clock)
  }

  /** `validMotds`: the eligible entries, in declaration order. */
  function Candidates(es: seq<MotdEntry>, server: Server, clock: Clock): (r: seq<MotdEntry>)
    reads es
    ensures |r| <= |es|
    ensures forall j :: 0 <= j < |r| ==> r[j] in es && Eligible(r[j], server, clock)
    ensures forall j :: 0 <= j < |es| && Eligible(es[j], server, clock) ==> es[j] in r
  {
    if es == [] then []
    else
      var init := es[..|es| - 1];
      var last := es[|es| - 1];
      Candidates(init, server, clock) + (if Eligible(last, server, clock) then [last] else [])
  }

  /** The candidates of a longer list extend those of its prefix: the
      filter keeps declaration order. */
  lemma {:induction false} CandidatesAppend(a: seq<MotdEntry>, b: seq<MotdEntry>, server: Server, clock: Clock)
    ensures Candidates(a + b, server, clock) == Candidates(a, server, clock) + Candidates(b, server, clock)
    decreases |b|
  {
    if b == [] {
      assert a + b == a;
    } else {
      var b' := b[..|b| - 1];
      assert (a + b)[..|a + b| - 1] == a + b';
      CandidatesAppend(a, b', server, clock);
    }
  }

  // ---------------------------------------------------------------------
  // Rotation
  // ---------------------------------------------------------------------

  /** `stream().max(comparingInt(getPriority))`: a left fold that keeps the
      current best unless the next one is strictly greater, so the result
      has the largest priority and is the first with it. */
  function BestIndex(ps: seq<int>): (k: nat)
    requires |ps| > 0
    ensures k < |ps|
    ensures forall j :: 0 <= j < |ps| ==> ps[j] <= ps[k]
    ensures forall j :: 0 <= j < k ==> ps[j] < ps[k]
  {
    if |ps| == 1 then 0
    else
      var k := BestIndex(ps[..|ps| - 1]);
      if ps[k] >= ps[|ps| - 1] then k else |ps| - 1
  }

  function Priorities(cands: seq<MotdEntry>): (ps: seq<int>)
    reads cands
    ensures |ps| == |cands| && forall j :: 0 <= j < |cands| ==> ps[j] == cands[j].priority
  {
    seq(|cands|, j reads cands requires 0 <= j < |cands| => cands[j].priority)
  }

  /** The index `sequential` rotation reads, `Math.floorMod(index, n)`; it
      agrees with the source's `index % n` for every non-negative index. */
  function SequentialPick(index: int, n: int): (k: int)
    requires n > 0
    ensures 0 <= k < n
    ensures index >= 0 ==> k == JavaRem(index, n)
  {
    if index >= 0 then
      JavaRemNonNegative(index, n);
      index % n
    else index % n
  }

  /** Consecutive calls cycle through the candidates: the index after `k`
      picks the next candidate, the first after the last. */
  lemma SequentialPicksCycle(k: nat, n: int)
    requires n > 0
    ensures SequentialPick(k + 1, n) == NextFrame(SequentialPick(k, n), n)
  {
    var q, r := k / n, k % n;
    if r + 1 < n {
      ModUnique(k + 1, q, r + 1, n);
    } else {
      ModUnique(k + 1, q + 1, 0, n);
    }
  }

  /** Three candidates over four calls from index 0: A, B, C, A. */
  lemma SequentialExample()
    ensures SequentialPick(0, 3) == 0 && SequentialPick(1, 3) == 1
    ensures SequentialPick(2, 3) == 2 && SequentialPick(3, 3) == 0
  {
    SequentialPicksCycle(0, 3);
    SequentialPicksCycle(1, 3);
    SequentialPicksCycle(2, 3);
  }

  /** The source's index, `rotationIndex % validMotds.size()` with Java's
      `%`: `get` throws for a negative remainder. */
  function SequentialPickAsWritten(index: int, n: int): (r: Result<nat, JavaException>)
    requires n > 0
    ensures index >= 0 ==> r.Success? && r.value == index % n
    ensures r.Success? ==> r.value < n
    ensures r.Failure? ==> index < 0 && r.error == IndexOutOfBounds
  {
    var k := JavaRem(index, n);
    if k < 0 then Failure(IndexOutOfBounds) else Success(k)
  }

  /** After 2^31 sequential pings `rotationIndex++` wraps to `INT_MIN`, and
      with three candidates the next ping reads index -2 and throws, so the
      MOTD is no longer set. */
  lemma SequentialOverflow()
    ensures Wrap32(INT_MAX + 1) == INT_MIN
    ensures SequentialPickAsWritten(INT_MIN, 3) == Failure(IndexOutOfBounds)
    ensures 0 <= SequentialPick(INT_MIN, 3) < 3
  {
    assert JavaDiv(INT_MIN, 3) == -715827882;
  }

  /** `getBestMotd`'s choice among the candidates: none gives `null`;
      otherwise the lower-cased rotation type (a missing one throws) picks
      by priority (`priority`, `timed`), by the rotation index
      (`sequential`), by the random draw (`random`, `draw` standing for
      `nextInt`), or takes the first. */
  function Pick(cands: seq<MotdEntry>, rotationType: Option<string>, index: int, draw: nat): (r: Result<Option<MotdEntry>, JavaException>)
    reads cands
    ensures r.Success? && r.value.Some? ==> r.value.value in cands
    ensures r == Success(None) <==> |cands| == 0
  {
    if |cands| == 0 then Success(None)
    else if rotationType.None? then Failure(NullPointer)
    else
      var t := ToLower(rotationType.value);
      if t == "priority" || t == "timed" then Success(Some(cands[BestIndex(Priorities(cands))]))
      else if t == "sequential" then Success(Some(cands[SequentialPick(index, |cands|)]))
      else if t == "random" then Success(Some(cands[draw % |cands|]))
      else Success(Some(cands[0]))
  }

  /** By priority the chosen entry has the largest priority of all
      candidates, and every earlier candidate a smaller one. */
  lemma PickByPriority(cands: seq<MotdEntry>, t: string, index: int, draw: nat)
    requires |cands| > 0 && (ToLower(t) == "priority" || ToLower(t) == "timed")
    ensures Pick(cands, Some(t), index, draw).Success?
    ensures var k := BestIndex(Priorities(cands));
      Pick(cands, Some(t), index, draw) == Success(Some(cands[k])) &&
      (forall j :: 0 <= j < |cands| ==> cands[j].priority <= cands[k].priority) &&
      (forall j :: 0 <= j < k ==> cands[j].priority < cands[k].priority)
  {
  }

  /** An unknown rotation type falls back to the first candidate. */
  lemma PickUnknownType(cands: seq<MotdEntry>, t: string, index: int, draw: nat)
    requires |cands| > 0
    requires var l := ToLower(t); l != "priority" && l != "timed" && l != "sequential" && l != "random"
    ensures Pick(cands, Some(t), index, draw) == Success(Some(cands[0]))
  {
  }

  /** The rotation index after a call: one more (in 32-bit arithmetic) after
      a sequential pick, unchanged otherwise. */
  function NextIndex(n: int, rotationType: Option<string>, index: int): int {
    if n > 0 && rotationType.Some? && ToLower(rotationType.value) == "sequential"
    then Wrap32(index + 1) else index
  }

  // ---------------------------------------------------------------------
  // Answering a ping
  // ---------------------------------------------------------------------

  /** The two lines of the chosen entry: an animated entry, while animation
      is enabled, shows its current frame when it has one; otherwise, and
      for a static entry, its own lines (`null` for an animated entry). */
  function MotdLines(e: MotdEntry, animationEnabled: bool): (r: Result<(Option<string>, Option<string>), JavaException>)
    reads e
    ensures !(e.animated && animationEnabled) || |e.frames| == 0 ==> r == Success((e.line1, e.line2))
    ensures e.animated && animationEnabled && e.CursorInRange() && |e.frames| > 0 ==>
      r == Success((Some(e.frames[e.currentFrame].line1), Some(e.frames[e.currentFrame].line2)))
    ensures r.Failure? ==> e.animated && animationEnabled && !e.CursorInRange()
  {
    if e.animated && animationEnabled then
      match e.CurrentFrameData()
      case Failure(x) => Failure(x)
      case Success(Some(f)) => Success((Some(f.line1), Some(f.line2)))
      case Success(None) => Success((e.line1, e.line2))
    else Success((e.line1, e.line2))
  }

  /** `processPlaceholders(text)`: `null` gives ""; otherwise the two server
      tokens are replaced by the online and maximum counts, then
      PlaceholderAPI runs if enabled. */
  function ProcessPlaceholders(text: Option<string>, server: Server): (r: string)
    ensures text.None? ==> r == ""
  {
    match text
    case None => ""
    case Some(t) =>
      var t1 := Replace(Replace(t, "%server_online%", IntToString(server.online)),
                        "%server_max_players%", IntToString(server.maxPlayers));
      match server.papi
      case None => t1
      case Some(f) => f(t1)
  }

  /** Without PlaceholderAPI, a line with no `%` is shown as written. */
  lemma PlainLineUnchanged(t: string, server: Server)
    requires server.papi.None? && '%' !in t
    ensures ProcessPlaceholders(Some(t), server) == t
  {
    AbsentFirstChar(t, "%server_online%");
    ReplaceAbsent(t, "%server_online%", IntToString(server.online));
    AbsentFirstChar(t, "%server_max_players%");
    ReplaceAbsent(t, "%server_max_players%", IntToString(server.maxPlayers));
  }

  /** The downsampling for clients before protocol 735 (1.16), when enabled:
      `closest-match` (any case) or the simple tag stripping. */
  function DownsampleColors(text: string, settings: Settings, server: Server): (r: string)
    ensures EqualsIgnoreCase(settings.colorDownsamplingMethod, "closest-match") ==> r == ConvertToLegacy(text, server.mini)
    ensures !EqualsIgnoreCase(settings.colorDownsamplingMethod, "closest-match") ==> NoTags(r)
    ensures !EqualsIgnoreCase(settings.colorDownsamplingMethod, "closest-match") && '<' !in text ==> r == text
  {
    if EqualsIgnoreCase(settings.colorDownsamplingMethod, "closest-match")
    then DownsampleToLegacy(Some(text), server.mini)
    else DownsampleToLegacySimple(Some(text))
  }

  /** The MiniMessage source of the MOTD: both lines processed, downsampled
      for old clients, joined by a newline. */
  function RenderMotd(lines: (Option<string>, Option<string>), settings: Settings, server: Server, protocol: int): (r: string)
    ensures var l1, l2 := ProcessPlaceholders(lines.0, server), ProcessPlaceholders(lines.1, server);
      (!settings.colorDownsamplingEnabled || protocol >= 735 ==> r == l1 + "\n" + l2) &&
      ('<' !in l1 && '<' !in l2 && !EqualsIgnoreCase(settings.colorDownsamplingMethod, "closest-match") ==> r == l1 + "\n" + l2)
  {
    var l1 := ProcessPlaceholders(lines.0, server);
    var l2 := ProcessPlaceholders(lines.1, server);
    if settings.colorDownsamplingEnabled && protocol < 735
    then DownsampleColors(l1, settings, server) + "\n" + DownsampleColors(l2, settings, server)
    else l1 + "\n" + l2
  }

  /** The ping as the event holds it: the MOTD text (not yet parsed by
      MiniMessage), the player counts and the client's protocol version. */
  datatype Ping = Ping(motd: Option<string>, numPlayers: int, maxPlayers: int, protocol: int)

  /** `handlePlayerCount(event)`: with fake counts enabled, a positive fixed
      count replaces the count, else a non-zero addition is added (in 32-bit
      arithmetic); independently a positive configured maximum replaces the
      maximum. */
  function HandlePlayerCount(settings: Settings, ping: Ping): (r: Ping)
    requires IsInt32(ping.numPlayers)
    ensures r.motd == ping.motd && r.protocol == ping.protocol && IsInt32(r.numPlayers)
    ensures settings.fakePlayerCountEnabled && settings.fakePlayerCountFixed > 0 && IsInt32(settings.fakePlayerCountFixed) ==>
      r.numPlayers == settings.fakePlayerCountFixed
    ensures (settings.fakePlayerCountEnabled && settings.fakePlayerCountFixed <= 0 && settings.fakePlayerCountAdd != 0 &&
      IsInt32(ping.numPlayers + settings.fakePlayerCountAdd)) ==> r.numPlayers == ping.numPlayers + settings.fakePlayerCountAdd
    ensures !settings.fakePlayerCountEnabled || (settings.fakePlayerCountFixed <= 0 && settings.fakePlayerCountAdd == 0) ==>
      r.numPlayers == ping.numPlayers
    ensures r.maxPlayers == if settings.maxPlayers > 0 then settings.maxPlayers else ping.maxPlayers
  {
    var num :=
      if !settings.fakePlayerCountEnabled then ping.numPlayers
      else if settings.fakePlayerCountFixed > 0 then Wrap32(settings.fakePlayerCountFixed)
      else if settings.fakePlayerCountAdd != 0 then Wrap32(ping.numPlayers + settings.fakePlayerCountAdd)
      else ping.numPlayers;
    var max := if settings.maxPlayers > 0 then settings.maxPlayers else ping.maxPlayers;
    Ping(ping.motd, num, max, ping.protocol)
  }

  /** Applying the configured counts twice gives what applying them once
      gives when the count is fixed or untouched, and the maximum always. */
  lemma HandlePlayerCountSettles(settings: Settings, ping: Ping)
    requires IsInt32(ping.numPlayers)
    ensures HandlePlayerCount(settings, HandlePlayerCount(settings, ping)).maxPlayers == HandlePlayerCount(settings, ping).maxPlayers
    ensures (settings.fakePlayerCountFixed > 0 || settings.fakePlayerCountAdd == 0) ==>
      HandlePlayerCount(settings, HandlePlayerCount(settings, ping)) == HandlePlayerCount(settings, ping)
  {
  }

  /** `onServerListPing` after the choice: nothing changes when MOTDs are
      disabled, when no entry answers, or when an exception is caught;
      otherwise the MOTD is set and the player counts are adjusted. */
  function Respond(settings: Settings, server: Server, pick: Result<Option<MotdEntry>, JavaException>, ping: Ping): (r: Ping)
    requires IsInt32(ping.numPlayers)
    reads if pick.Success? && pick.value.Some? then {pick.value.value} else {}
    ensures pick.Failure? || pick == Success(None) ==> r == ping
  {
    match pick
    case Failure(_) => ping
    case Success(None) => ping
    case Success(Some(e)) =>
      match MotdLines(e, settings.animationEnabled)
      case Failure(_) => ping
      case Success(lines) =>
        HandlePlayerCount(settings, ping.(motd := Some(RenderMotd(lines, settings, server, ping.protocol))))
  }

  /** The entries are valid, separate objects. */
  predicate Separate(es: seq<MotdEntry>)
    reads es
  {
    (forall j :: 0 <= j < |es| ==> es[j].Valid()) &&
    (forall j, l :: 0 <= j < l < |es| ==> es[j] != es[l])
  }

  /** An entry the animation task advances. */
  predicate Ticked(e: MotdEntry)
    reads e
  {
    e.enabled && e.animated
  }

  /** The index of the first entry whose step throws, or `|es|`. */
  function FirstFailing(es: seq<MotdEntry>): (k: nat)
    reads es
    ensures k <= |es|
    ensures forall j :: 0 <= j < k ==> !Fails(es[j])
    ensures k < |es| ==> Fails(es[k])
  {
    if es == [] then 0
    else if Fails(es[0]) then 0
    else 1 + FirstFailing(es[1..])
  }

  /** A step of this entry throws: a negative cursor after `getNextFrame`. */
  predicate Fails(e: MotdEntry)
    reads e
  {
    Ticked(e) && |e.frames| > 0 && NextCursor(e.currentFrame, |e.frames|) < 0
  }

  /** The cursor after one step of the animation task. */
  function Stepped(e: MotdEntry): int
    reads e
  {
    if Ticked(e) && |e.frames| > 0 then NextCursor(e.currentFrame, |e.frames|) else e.currentFrame
  }

  /** Entries whose cursors are in range never make the animation task fail. */
  lemma InRangeNeverFails(es: seq<MotdEntry>)
    requires forall j :: 0 <= j < |es| ==> es[j].Valid() && es[j].CursorInRange()
    ensures FirstFailing(es) == |es|
  {
    if FirstFailing(es) < |es| {
      var e := es[FirstFailing(es)];
      NextCursorInRange(e.currentFrame, |e.frames|);
      assert false;
    }
  }

  /** The MOTD manager: the loaded entries, the settings and the rotation
      index, which is never reset. */
  class MotdManager {
    const store: MotdConfigStore
    var settings: Settings
    var rotationIndex: int

    predicate Valid()
      reads this, store, store.motds
    {
      IsInt32(rotationIndex) && Separate(store.motds)
    }

    /** A new manager with rotation index 0. */
    constructor (store: MotdConfigStore, settings: Settings)
      requires Separate(store.motds)
      ensures this.store == store && this.settings == settings && rotationIndex == 0
      ensures Valid()
    {
      this.store := store;
      this.settings := settings;
      rotationIndex := 0;
    }

    /** `getBestMotd(event)`: the pick among the candidates; the rotation
        index advances by one after a sequential pick. */
    method GetBestMotd(server: Server, clock: Clock, draw: nat) returns (r: Result<Option<MotdEntry>, JavaException>)
      requires Valid()
      modifies this`rotationIndex
      ensures Valid()
      ensures var cands := Candidates(store.motds, server, clock);
        r == Pick(cands, settings.rotationType, old(rotationIndex), draw) &&
        rotationIndex == NextIndex(|cands|, settings.rotationType, old(rotationIndex))
    {
      var cands := Candidates(store.motds, server, clock);
      r := Pick(cands, settings.rotationType, rotationIndex, draw);
      rotationIndex := NextIndex(|cands|, settings.rotationType, rotationIndex);
    }

    /** `onServerListPing(event)`: the response to the ping. */
    method OnServerListPing(server: Server, clock: Clock, draw: nat, ping: Ping) returns (r: Ping)
      requires Valid() && IsInt32(ping.numPlayers)
      modifies this`rotationIndex
      ensures Valid()
      ensures !settings.enabled ==> r == ping && rotationIndex == old(rotationIndex)
      ensures settings.enabled ==>
        var cands := Candidates(store.motds, server, clock);
        r == Respond(settings, server, Pick(cands, settings.rotationType, old(rotationIndex), draw), ping) &&
        rotationIndex == NextIndex(|cands|, settings.rotationType, old(rotationIndex))
    {
      if !settings.enabled {
        return ping;
      }
      var best := GetBestMotd(server, clock, draw);
      r := Respond(settings, server, best, ping);
    }

    /** `startAnimationTask`'s period: the frame interval in ticks of 50 ms,
        and at least one tick. */
    function TaskInterval(): (ticks: int)
      reads this
      ensures ticks >= 1
      ensures settings.frameInterval >= 50 ==> ticks == settings.frameInterval / 50
    {
      var t := JavaDiv(settings.frameInterval, 50);
      if t < 1 then 1 else t
    }
  }

  /** One run of the animation task: every enabled animated entry, in
      order, takes its next frame; an exception ends the run, leaving the
      entries after it untouched. */
  method AnimationTick(es: seq<MotdEntry>) returns (r: Result<(), JavaException>)
    requires Separate(es)
    modifies es
    ensures Separate(es)
    ensures r.Success? <==> old(FirstFailing(es)) == |es|
    ensures forall j :: 0 <= j < |es| ==>
      es[j].frames == old(es[j].frames) && es[j].enabled == old(es[j].enabled) && es[j].animated == old(es[j].animated) &&
      es[j].currentFrame == if j <= old(FirstFailing(es)) then old(Stepped(es[j])) else old(es[j].currentFrame)
  {
    ghost var first := FirstFailing(es);
    ghost var before := seq(|es|, j reads es requires 0 <= j < |es| => es[j].currentFrame);
    ghost var stepped := seq(|es|, j reads es requires 0 <= j < |es| => Stepped(es[j]));
    ghost var frames := seq(|es|, j reads es requires 0 <= j < |es| => es[j].frames);
    ghost var ticked := seq(|es|, j reads es requires 0 <= j < |es| => Ticked(es[j]));
    var i := 0;
    r := Success(());
    while i < |es| && r.Success?
      invariant 0 <= i <= |es|
      invariant r.Success? ==> i <= first
      invariant r.Failure? ==> i == first + 1
      invariant forall j :: 0 <= j < |es| ==>
        es[j].Valid() && es[j].frames == frames[j] && Ticked(es[j]) == ticked[j] &&
        es[j].enabled == old(es[j].enabled) && es[j].animated == old(es[j].animated) &&
        es[j].currentFrame == if j < i then stepped[j] else before[j]
    {
      assert forall j :: 0 <= j < |es| && j != i ==> es[j] != es[i];
      if es[i].enabled && es[i].animated {
        var f := es[i].GetNextFrame();
        if f.Failure? {
          r := Failure(f.error);
        }
      }
      i := i + 1;
    }
  }
}
