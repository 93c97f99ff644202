/**
 Time and duration text shown by the client: the compact relative age of
 the chat list, the "… ago" form of the chat header and the call history,
 the call screen's `MM:SS` clock, the `m:ss` clock used by call history,
 call bubbles and the recorder, the `Ns` form of call bubbles, and the
 capped notification badges. Instants are integer milliseconds and the
 current time is a parameter; a date the locale would print is returned as
 `LocaleDate` rather than rendered.
 */
module TimeText {
  import opened Base
  import opened Domain

  const MinuteMs: int := 60000
  const HourMs: int := 3600000
  const DayMs: int := 86400000

  /** Text for the user, or the locale's rendering of an instant (not modelled). */
  datatype Rendered = Plain(text: string) | LocaleDate(at: Millis)

  /**
   `formatDistanceToNow`: `date` is None when missing or not a valid date.
   Each unit is the floor of the previous one, and the buckets are tried in
   order, so months are reached only after weeks reach 4.
   */
  function DistanceToNow(date: Option<Millis>, now: Millis): Rendered
  {
    if date.None? then Plain("")
    else
      var diff := now - date.value;
      var seconds := diff / 1000;
      var minutes := seconds / 60;
      var hours := minutes / 60;
      var days := hours / 24;
      var weeks := days / 7;
      var months := days / 30;
      if seconds < 60 then Plain("now")
      else if minutes < 60 then Plain(NatToString(minutes) + "m")
      else if hours < 24 then Plain(NatToString(hours) + "h")
      else if days < 7 then Plain(NatToString(days) + "d")
      else if weeks < 4 then Plain(NatToString(weeks) + "w")
      else if months < 12 then Plain(NatToString(months) + "mo")
      else LocaleDate(date.value)
  }

  /**
   The "… ago" buckets of the chat header's and the call history's
   `formatTime`; they differ only in how "just now" is capitalised. Every unit
   is taken directly from the elapsed milliseconds.
   */
  function Ago(date: Millis, now: Millis, justNow: string): Rendered
  {
    var diff := now - date;
    var minutes := diff / MinuteMs;
    var hours := diff / HourMs;
    var days := diff / DayMs;
    if minutes < 1 then Plain(justNow)
    else if minutes < 60 then Plain(NatToString(minutes) + "m ago")
    else if hours < 24 then Plain(NatToString(hours) + "h ago")
    else if days < 7 then Plain(NatToString(days) + "d ago")
    else LocaleDate(date)
  }

  /** The chat header's `formatTime`: "unknown" for a missing or invalid date. */
  function HeaderTime(date: Option<Millis>, now: Millis): Rendered
  {
    if date.None? then Plain("unknown") else Ago(date.value, now, "just now")
  }

  /** The call history's `formatTime`: the message timestamp is always a date. */
  function HistoryTime(date: Millis, now: Millis): Rendered
  {
    Ago(date, now, "Just now")
  }

  /** The chained floors of `formatDistanceToNow`, each as one division of the elapsed time. */
  lemma ChainedFloors(d: int)
    ensures d / 1000 / 60 == d / MinuteMs
    ensures d / 1000 / 60 / 60 == d / HourMs
    ensures d / 1000 / 60 / 60 / 24 == d / DayMs
    ensures d / 1000 / 60 / 60 / 24 / 7 == d / (7 * DayMs)
    ensures d / 1000 / 60 / 60 / 24 / 30 == d / (30 * DayMs)
  {
  }

  /**
   The relative age by elapsed milliseconds: an independent statement of the
   same buckets as thresholds on the elapsed time. Future instants read "now";
   28 to 30 days read "0mo".
   */
  lemma DistanceByElapsed(date: Millis, now: Millis)
    ensures var d := now - date; var r := DistanceToNow(Some(date), now);
      && (d < MinuteMs ==> r == Plain("now"))
      && (MinuteMs <= d < HourMs ==> r == Plain(NatToString(d / MinuteMs) + "m"))
      && (HourMs <= d < DayMs ==> r == Plain(NatToString(d / HourMs) + "h"))
      && (DayMs <= d < 7 * DayMs ==> r == Plain(NatToString(d / DayMs) + "d"))
      && (7 * DayMs <= d < 28 * DayMs ==> r == Plain(NatToString(d / (7 * DayMs)) + "w"))
      && (28 * DayMs <= d < 360 * DayMs ==> r == Plain(NatToString(d / (30 * DayMs)) + "mo"))
      && (d >= 360 * DayMs ==> r == LocaleDate(date))
  {
    ChainedFloors(now - date);
  }

  /** Between 28 and 30 days the month bucket is reached with zero months. */
  lemma ZeroMonths(date: Millis, now: Millis)
    requires 28 * DayMs <= now - date < 30 * DayMs
    ensures DistanceToNow(Some(date), now) == Plain("0mo")
  {
    DistanceByElapsed(date, now);
    assert (now - date) / (30 * DayMs) == 0;
  }

  /** A missing date renders as the empty string. */
  lemma DistanceMissing(now: Millis)
    ensures DistanceToNow(None, now) == Plain("")
  {
  }

  /**
   Up to a week the header and the chat list count the same number of units;
   only the suffix differs.
   */
  lemma HeaderAgreesWithDistance(date: Millis, now: Millis)
    requires MinuteMs <= now - date < 7 * DayMs
    ensures exists n: nat, unit: string ::
      && DistanceToNow(Some(date), now) == Plain(NatToString(n) + unit)
      && HeaderTime(Some(date), now) == Plain(NatToString(n) + unit + " ago")
  {
    DistanceByElapsed(date, now);
    var d := now - date;
    UnitBounds(d);
    var n: nat, unit: string;
    if d < HourMs {
      n, unit := d / MinuteMs, "m";
      assert Ago(date, now, "just now") == Plain(NatToString(n) + "m ago");
    } else if d < DayMs {
      n, unit := d / HourMs, "h";
      assert Ago(date, now, "just now") == Plain(NatToString(n) + "h ago");
    } else {
      n, unit := d / DayMs, "d";
      assert Ago(date, now, "just now") == Plain(NatToString(n) + "d ago");
    }
    assert NatToString(n) + unit + " ago" == NatToString(n) + (unit + " ago");
    assert DistanceToNow(Some(date), now) == Plain(NatToString(n) + unit);
  }

  /** Where each elapsed-time bucket puts the minute, hour and day counts. */
  lemma UnitBounds(d: int)
    requires MinuteMs <= d < 7 * DayMs
    ensures d / MinuteMs >= 1
    ensures d < HourMs ==> d / MinuteMs < 60
    ensures HourMs <= d ==> d / MinuteMs >= 60
    ensures HourMs <= d < DayMs ==> d / HourMs < 24
    ensures DayMs <= d ==> d / HourMs >= 24 && d / DayMs < 7
  {
  }

  // ---------------------------------------------------------------------------
  // Durations
  // ---------------------------------------------------------------------------

  /** The call screen's `formatDuration`: both fields padded to two digits. */
  function Clock(seconds: nat): string
  {
    PadStart2(NatToString(seconds / 60)) + ":" + PadStart2(NatToString(seconds % 60))
  }

  /** The `m:ss` clock: minutes unpadded, seconds padded to two digits. */
  function ShortClock(seconds: nat): string
  {
    NatToString(seconds / 60) + ":" + PadStart2(NatToString(seconds % 60))
  }

  /** The call bubble's `formatDuration`: "Ns" below a minute, `m:ss` from there. */
  function BubbleDuration(seconds: nat): string
  {
    if seconds < 60 then NatToString(seconds) + "s" else ShortClock(seconds)
  }

  /** Reads `m:ss` or `MM:SS` text back into seconds: the inverse of both clocks. */
  function ParseClock(s: string): Option<nat>
  {
    match FirstIndex(s, (c: char) => c == ':')
    case None => None
    case Some(i) =>
      var mins := s[..i];
      var secs := s[i + 1..];
      if |mins| >= 1 && AllDigits(mins) && |secs| == 2 && AllDigits(secs) && DigitsValue(secs) < 60
      then Some(DigitsValue(mins) * 60 + DigitsValue(secs))
      else None
  }

  /** Reading digits, a colon and two digits splits at that colon. */
  lemma ParseJoined(mins: string, secs: string)
    requires |mins| >= 1 && AllDigits(mins) && |secs| == 2 && AllDigits(secs) && DigitsValue(secs) < 60
    ensures ParseClock(mins + ":" + secs) == Some(DigitsValue(mins) * 60 + DigitsValue(secs))
  {
    var s := mins + ":" + secs;
    var i := FirstIndex(s, (c: char) => c == ':');
    assert s[|mins|] == ':';
    assert i.Some?;
    assert !IsDigit(':');
    assert forall j :: 0 <= j < |mins| ==> s[j] == mins[j];
    assert i.value == |mins|;
    assert s[..i.value] == mins;
    assert s[i.value + 1..] == secs;
  }

  lemma PaddedSeconds(seconds: nat)
    ensures var t := PadStart2(NatToString(seconds % 60));
      |t| == 2 && AllDigits(t) && DigitsValue(t) == seconds % 60
  {
    NatToStringShort(seconds % 60);
    NatToStringRoundTrip(seconds % 60);
    PadStart2Value(NatToString(seconds % 60));
  }

  lemma SplitSeconds(seconds: nat, mins: nat, secs: nat)
    requires mins == seconds / 60 && secs == seconds % 60
    ensures mins * 60 + secs == seconds
  {
  }

  /** The `MM:SS` clock: minutes take at least two digits, seconds exactly two and below 60. */
  lemma ClockFields(seconds: nat)
    ensures exists mins: string, secs: string ::
      && Clock(seconds) == mins + ":" + secs
      && |mins| >= 2 && AllDigits(mins)
      && |secs| == 2 && AllDigits(secs) && DigitsValue(secs) < 60
  {
    var m := PadStart2(NatToString(seconds / 60));
    PadStart2Value(NatToString(seconds / 60));
    PaddedSeconds(seconds);
    assert Clock(seconds) == m + ":" + PadStart2(NatToString(seconds % 60));
  }

  /** Reading the `MM:SS` clock back gives minutes·60 + seconds = the input. */
  lemma ClockRoundTrip(seconds: nat)
    ensures ParseClock(Clock(seconds)) == Some(seconds)
  {
    var m := PadStart2(NatToString(seconds / 60));
    var ss := PadStart2(NatToString(seconds % 60));
    NatToStringRoundTrip(seconds / 60);
    PadStart2Value(NatToString(seconds / 60));
    PaddedSeconds(seconds);
    ParseJoined(m, ss);
    assert Clock(seconds) == m + ":" + ss;
    SplitSeconds(seconds, DigitsValue(m), DigitsValue(ss));
  }

  /** The `m:ss` clock reads back to its input; minutes carry no leading zero. */
  lemma ShortClockRoundTrip(seconds: nat)
    ensures var c := ShortClock(seconds);
      && ParseClock(c) == Some(seconds)
      && (c[0] == '0' ==> seconds < 60)
  {
    NatToStringRoundTrip(seconds / 60);
    PaddedSeconds(seconds);
    ParseJoined(NatToString(seconds / 60), PadStart2(NatToString(seconds % 60)));
  }

  /** Different durations never share a clock text. */
  lemma ClocksInjective(a: nat, b: nat)
    requires a != b
    ensures Clock(a) != Clock(b) && ShortClock(a) != ShortClock(b)
  {
    ClockRoundTrip(a);
    ClockRoundTrip(b);
    ShortClockRoundTrip(a);
    ShortClockRoundTrip(b);
  }

  /** Below a minute the bubble shows the plain seconds; from a minute on, the `m:ss` clock. */
  lemma BubbleDurationShape(seconds: nat)
    ensures var t := BubbleDuration(seconds);
      && (seconds < 60 ==> t[|t| - 1] == 's' && DigitsValue(t[..|t| - 1]) == seconds)
      && (seconds >= 60 ==> ParseClock(t) == Some(seconds))
  {
    var t := BubbleDuration(seconds);
    if seconds < 60 {
      assert t[..|t| - 1] == NatToString(seconds);
      NatToStringRoundTrip(seconds);
    } else {
      ShortClockRoundTrip(seconds);
    }
  }

  // ---------------------------------------------------------------------------
  // Badges
  // ---------------------------------------------------------------------------

  /** A notification badge: hidden at 0, the count up to `cap`, then "cap+". */
  function Badge(count: nat, cap: nat): Option<string>
  {
    if count == 0 then None
    else if count > cap then Some(NatToString(cap) + "+")
    else Some(NatToString(count))
  }

  /**
   A shown badge reads back as min(count, cap), with a trailing "+" exactly
   when the count was capped.
   */
  lemma BadgeReadsBack(count: nat, cap: nat)
    ensures Badge(count, cap).None? <==> count == 0
    ensures Badge(count, cap).Some? ==>
      var t := Badge(count, cap).value;
      var capped := t[|t| - 1] == '+';
      var digits := if capped then t[..|t| - 1] else t;
      && (capped <==> count > cap)
      && AllDigits(digits)
      && DigitsValue(digits) == (if count > cap then cap else count)
  {
    if count > 0 {
      var t := Badge(count, cap).value;
      if count > cap {
        assert t[..|t| - 1] == NatToString(cap);
        NatToStringRoundTrip(cap);
      } else {
        assert IsDigit(t[|t| - 1]);
        NatToStringRoundTrip(count);
      }
    }
  }
}
