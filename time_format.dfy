/** `TimeUtil`: a duration in milliseconds as `"<d>d <h>h"`, `"<h>h <m>m"`,
    `"<m>m <s>s"` or `"<s>s"`. */
module TimeFormat {
  import opened Strings

  const SECOND := 1000
  const MINUTE := 60 * SECOND
  const HOUR := 60 * MINUTE
  const DAY := 24 * HOUR

  /** `formatTime`: the `TimeUnit` conversions truncate toward zero, and the
      largest non-zero unit chooses the form. */
  function FormatTime(millis: int): (r: string)
    ensures |r| >= 2
    ensures r[|r| - 1] == (if millis >= DAY then 'h' else if millis >= HOUR then 'm' else 's')
  {
    var seconds := JavaDiv(millis, SECOND);
    var minutes := JavaDiv(millis, MINUTE);
    var hours := JavaDiv(millis, HOUR);
    var days := JavaDiv(millis, DAY);
    UnitReached(millis, DAY);
    UnitReached(millis, HOUR);
    if days > 0 then IntToString(days) + "d " + IntToString(JavaRem(hours, 24)) + "h"
    else if hours > 0 then IntToString(hours) + "h " + IntToString(JavaRem(minutes, 60)) + "m"
    else if minutes > 0 then IntToString(minutes) + "m " + IntToString(JavaRem(seconds, 60)) + "s"
    else IntToString(seconds) + "s"
  }

  /** A truncated quotient is positive exactly from one whole unit on. */
  lemma UnitReached(millis: int, unit: int)
    requires unit > 0
    ensures JavaDiv(millis, unit) > 0 <==> millis >= unit
  {
  }

  /** `formatSeconds`: `seconds * 1000` is a `long` product and wraps. */
  function FormatSeconds(seconds: int): (r: string)
    ensures IsInt64(seconds * 1000) ==> r == FormatTime(seconds * 1000)
  {
    FormatTime(Wrap64(seconds * 1000))
  }

  /** From one day on: the whole days and the whole hours left over. */
  lemma FormatDays(d: int, h: int, rest: int)
    requires d >= 1 && 0 <= h < 24 && 0 <= rest < HOUR
    ensures FormatTime(d * DAY + h * HOUR + rest) == IntToString(d) + "d " + IntToString(h) + "h"
  {
    var millis := d * DAY + h * HOUR + rest;
    assert JavaDiv(millis, DAY) == d;
    assert JavaDiv(millis, HOUR) == d * 24 + h;
    assert JavaRem(d * 24 + h, 24) == h;
  }

  /** From one hour to a day: the whole hours and the whole minutes left over. */
  lemma FormatHours(h: int, m: int, rest: int)
    requires 1 <= h < 24 && 0 <= m < 60 && 0 <= rest < MINUTE
    ensures FormatTime(h * HOUR + m * MINUTE + rest) == IntToString(h) + "h " + IntToString(m) + "m"
  {
    var millis := h * HOUR + m * MINUTE + rest;
    assert JavaDiv(millis, DAY) == 0;
    assert JavaDiv(millis, HOUR) == h;
    assert JavaDiv(millis, MINUTE) == h * 60 + m;
    assert JavaRem(h * 60 + m, 60) == m;
  }

  /** From one minute to an hour: the whole minutes and the whole seconds left over. */
  lemma FormatMinutes(m: int, s: int, rest: int)
    requires 1 <= m < 60 && 0 <= s < 60 && 0 <= rest < SECOND
    ensures FormatTime(m * MINUTE + s * SECOND + rest) == IntToString(m) + "m " + IntToString(s) + "s"
  {
    var millis := m * MINUTE + s * SECOND + rest;
    assert JavaDiv(millis, DAY) == 0;
    assert JavaDiv(millis, HOUR) == 0;
    assert JavaDiv(millis, MINUTE) == m;
    assert JavaDiv(millis, SECOND) == m * 60 + s;
    assert JavaRem(m * 60 + s, 60) == s;
  }

  /** Under a minute: the whole seconds, sub-second milliseconds dropped. */
  lemma FormatSecondsOnly(s: int, rest: int)
    requires 0 <= s < 60 && 0 <= rest < SECOND
    ensures FormatTime(s * SECOND + rest) == IntToString(s) + "s"
  {
    var millis := s * SECOND + rest;
    assert JavaDiv(millis, DAY) == 0;
    assert JavaDiv(millis, HOUR) == 0;
    assert JavaDiv(millis, MINUTE) == 0;
    assert JavaDiv(millis, SECOND) == s;
  }

  /** A negative duration reaches the last form with a truncated, non-positive
      second count. */
  lemma FormatNegative(millis: int)
    requires millis < 0
    ensures FormatTime(millis) == IntToString(JavaDiv(millis, SECOND)) + "s"
    ensures JavaDiv(millis, SECOND) <= 0 && millis - SECOND < JavaDiv(millis, SECOND) * SECOND
  {
    var days, hours, minutes := JavaDiv(millis, DAY), JavaDiv(millis, HOUR), JavaDiv(millis, MINUTE);
    assert days * DAY <= 0 && hours * HOUR <= 0 && minutes * MINUTE <= 0;
    assert days <= 0 && hours <= 0 && minutes <= 0;
  }
}
