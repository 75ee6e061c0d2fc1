/** The display rules of the history panel
    (components/url-generator/history-panel.tsx): which entries are shown,
    the relative-time buckets of a timestamp, URL truncation and the labels
    of an entry. The current time is a parameter. */
module HistoryPanel {
  import opened Wrappers
  import opened Text
  import opened UrlTypes

  // ---- the displayed entries ------------------------------------------------

  /** `history.slice(0, DISPLAY_HISTORY_COUNT)`: a prefix of the history of
      at most DISPLAY_HISTORY_COUNT entries. */
  function DisplayedHistory(history: seq<HistoryEntry>): (shown: seq<HistoryEntry>)
    ensures |shown| <= DISPLAY_HISTORY_COUNT && shown <= history
  {
    history[..if |history| <= DISPLAY_HISTORY_COUNT then |history| else DISPLAY_HISTORY_COUNT]
  }

  /** The shown entries are the most recent ones, in order: the first
      min(3, |history|) of them, all of them for a short history. */
  lemma DisplayedPrefix(history: seq<HistoryEntry>)
    ensures var shown := DisplayedHistory(history);
      && |shown| <= DISPLAY_HISTORY_COUNT && |shown| <= |history|
      && (|history| <= DISPLAY_HISTORY_COUNT ==> shown == history)
      && (|history| >= DISPLAY_HISTORY_COUNT ==> |shown| == DISPLAY_HISTORY_COUNT)
      && forall i :: 0 <= i < |shown| ==> shown[i] == history[i]
  {
  }

  /** The numbers of "Showing X of Y", present only when something is shown. */
  function Showing(history: seq<HistoryEntry>): (r: (nat, nat))
    requires |history| > 0
    ensures 1 <= r.0 <= r.1 && r.1 == |history|
  {
    (|DisplayedHistory(history)|, |history|)
  }

  /** "Showing X of Y" for a history that is not empty. */
  function ShowingText(history: seq<HistoryEntry>): (text: string)
    requires |history| > 0
    ensures |text| > 8 && text[..8] == "Showing "
  {
    var (shown, total) := Showing(history);
    "Showing " + NatToDecimal(shown) + " of " + NatToDecimal(total)
  }

  /** The two numbers of the "Showing" label read back as the shown and
      the total count: "Showing ", a digit run, " of ", a digit run. */
  lemma ShowingTextReads(history: seq<HistoryEntry>)
    requires |history| > 0
    ensures var text, k := ShowingText(history), |NatToDecimal(Showing(history).0)|;
      && 12 + k < |text| && text[..8] == "Showing " && text[8 + k..12 + k] == " of "
      && AllDigits(text[8..8 + k]) && DecimalValue(text[8..8 + k]) == Showing(history).0
      && AllDigits(text[12 + k..]) && DecimalValue(text[12 + k..]) == Showing(history).1
  {
    var (shown, total) := Showing(history);
    var d1, d2 := NatToDecimal(shown), NatToDecimal(total);
    var text := ShowingText(history);
    var k := |d1|;
    assert text == "Showing " + d1 + " of " + d2;
    assert text[8..8 + k] == d1 && text[8 + k..12 + k] == " of " && text[12 + k..] == d2;
    DecimalRoundTrip(shown);
    DecimalRoundTrip(total);
  }

  // ---- relative time --------------------------------------------------------

  const MINUTE_MS: int := 60000
  const HOUR_MS: int := 3600000
  const DAY_MS: int := 86400000

  /** The outcome of `formatTimestamp`; `OnDate` is the locale date shown
      for a week or more, whose text is not modelled. */
  datatype TimeLabel = JustNow | MinutesAgo(m: nat) | HoursAgo(h: nat) | DaysAgo(d: nat) | OnDate

  /** `Math.floor(diff / unit)` for a positive unit (Dafny's division floors
      when the divisor is positive). */
  function FloorDiv(diff: int, unit: int): int
    requires unit > 0
  {
    diff / unit
  }

  /** `formatTimestamp`: each bucket's number lies in its range. */
  function FormatTimestamp(timestamp: int, now: int): (t: TimeLabel)
    ensures t.JustNow? <==> now - timestamp < MINUTE_MS
    ensures t.MinutesAgo? ==> 1 <= t.m < 60
    ensures t.HoursAgo? ==> 1 <= t.h < 24
    ensures t.DaysAgo? ==> 1 <= t.d < 7
  {
    var diff := now - timestamp;
    var mins, hours, days := FloorDiv(diff, MINUTE_MS), FloorDiv(diff, HOUR_MS), FloorDiv(diff, DAY_MS);
    if mins < 1 then JustNow
    else if mins < 60 then MinutesAgo(mins)
    else if hours < 24 then HoursAgo(hours)
    else if days < 7 then DaysAgo(days)
    else OnDate
  }

  /** Under a minute, a future timestamp included, is "Just now". */
  lemma JustNowBucket(timestamp: int, now: int)
    ensures FormatTimestamp(timestamp, now) == JustNow <==> now - timestamp < MINUTE_MS
  {
  }

  /** "{m}m ago" exactly from one minute up to an hour, with m the whole
      minutes elapsed. */
  lemma MinutesBucket(timestamp: int, now: int, m: nat)
    ensures FormatTimestamp(timestamp, now) == MinutesAgo(m)
        <==> 1 <= m < 60 && m * MINUTE_MS <= now - timestamp < (m + 1) * MINUTE_MS
  {
    var diff := now - timestamp;
    if 1 <= m < 60 && m * MINUTE_MS <= diff < (m + 1) * MINUTE_MS {
      assert FloorDiv(diff, MINUTE_MS) == m;
    }
  }

  /** "{h}h ago" exactly from one hour up to a day. */
  lemma HoursBucket(timestamp: int, now: int, h: nat)
    ensures FormatTimestamp(timestamp, now) == HoursAgo(h)
        <==> 1 <= h < 24 && h * HOUR_MS <= now - timestamp < (h + 1) * HOUR_MS
  {
    var diff := now - timestamp;
    if 1 <= h < 24 && h * HOUR_MS <= diff < (h + 1) * HOUR_MS {
      assert FloorDiv(diff, HOUR_MS) == h;
      assert FloorDiv(diff, MINUTE_MS) >= 60;
    }
  }

  /** "{d}d ago" exactly from one day up to a week. */
  lemma DaysBucket(timestamp: int, now: int, d: nat)
    ensures FormatTimestamp(timestamp, now) == DaysAgo(d)
        <==> 1 <= d < 7 && d * DAY_MS <= now - timestamp < (d + 1) * DAY_MS
  {
    var diff := now - timestamp;
    if 1 <= d < 7 && d * DAY_MS <= diff < (d + 1) * DAY_MS {
      assert FloorDiv(diff, DAY_MS) == d;
      assert FloorDiv(diff, HOUR_MS) >= 24;
      assert FloorDiv(diff, MINUTE_MS) >= 60;
    }
  }

  /** A week or more gives the calendar date. */
  lemma DateBucket(timestamp: int, now: int)
    ensures FormatTimestamp(timestamp, now) == OnDate <==> now - timestamp >= 7 * DAY_MS
  {
  }

  /** The text of a relative label; None for the calendar date, whose
      locale text is not modelled. */
  function RelativeText(time: TimeLabel): (r: Option<string>)
    ensures r.None? <==> time.OnDate?
    ensures r.Some? ==> |r.value| > 0
  {
    match time
    case JustNow => Some("Just now")
    case MinutesAgo(m) => Some(NatToDecimal(m) + "m ago")
    case HoursAgo(h) => Some(NatToDecimal(h) + "h ago")
    case DaysAgo(d) => Some(NatToDecimal(d) + "d ago")
    case OnDate => None
  }

  /** The number in "{m}m ago" reads back as the minutes elapsed. */
  lemma MinutesTextReads(m: nat)
    ensures var t := RelativeText(MinutesAgo(m)).value;
      |t| > 5 && t[|t| - 5..] == "m ago" && AllDigits(t[..|t| - 5]) && DecimalValue(t[..|t| - 5]) == m
  {
    var t := RelativeText(MinutesAgo(m)).value;
    assert t[..|t| - 5] == NatToDecimal(m);
    DecimalRoundTrip(m);
  }

  // ---- truncation and labels ------------------------------------------------

  const DEFAULT_MAX_LENGTH: int := 50

  /** `truncateUrl(url, maxLength)`; `substring` treats a negative end as 0. */
  function TruncateUrl(url: string, maxLength: int): (r: string)
    ensures |url| <= maxLength ==> r == url
    ensures |url| > maxLength >= 0 ==> |r| == maxLength + 3 && r[..maxLength] == url[..maxLength]
    ensures |url| > maxLength ==> |r| >= 3 && r[|r| - 3..] == "..."
  {
    if |url| <= maxLength then url
    else url[..if maxLength < 0 then 0 else maxLength] + "..."
  }

  /** A truncated URL never exceeds the limit by more than the three dots.
      A URL comes back unchanged when it fits, and otherwise only when it is
      exactly three longer than the limit and already ends in "...". */
  lemma TruncateBound(url: string, maxLength: int)
    requires maxLength >= 0
    ensures |TruncateUrl(url, maxLength)| <= maxLength + 3
    ensures TruncateUrl(url, maxLength) == url
        <==> |url| <= maxLength || (|url| == maxLength + 3 && url[maxLength..] == "...")
  {
    var r := TruncateUrl(url, maxLength);
    if |url| > maxLength {
      assert r == url[..maxLength] + "...";
      if |url| == maxLength + 3 && url[maxLength..] == "..." {
        assert url == url[..maxLength] + url[maxLength..];
      }
    }
  }

  /** The base URL line: the URL, or "(no base URL)" when it is ''. */
  function BaseUrlLabel(baseUrl: string): (r: string)
    ensures |r| > 0
    ensures baseUrl != "" ==> r == baseUrl
  {
    if baseUrl == "" then "(no base URL)" else baseUrl
  }

  /** "{n} parameter" or "{n} parameters": the number comes first. */
  function ParameterCountLabel(n: nat): (text: string)
    ensures |NatToDecimal(n)| < |text| && text[..|NatToDecimal(n)|] == NatToDecimal(n)
  {
    NatToDecimal(n) + " " + (if n == 1 then "parameter" else "parameters")
  }

  /** The plural 's' is there exactly when the count is not 1, and the
      number reads back as the count. */
  lemma ParameterLabelSingular(n: nat)
    ensures var text := ParameterCountLabel(n);
      && (text[|text| - 1] == 's' <==> n != 1)
      && AllDigits(text[..|NatToDecimal(n)|])
      && DecimalValue(text[..|NatToDecimal(n)|]) == n
  {
    var text := ParameterCountLabel(n);
    assert text[..|NatToDecimal(n)|] == NatToDecimal(n);
    DecimalRoundTrip(n);
  }

  /** What the panel shows for one entry: the base URL line, the parameter
      count and the time label. */
  function EntryLabels(e: HistoryEntry, now: int): (r: (string, string, TimeLabel))
    ensures |r.0| > 0 && (e.configuration.baseUrl != "" ==> r.0 == e.configuration.baseUrl)
    ensures var n := |e.configuration.parameters|;
      && |NatToDecimal(n)| < |r.1|
      && (r.1[|r.1| - 1] == 's' <==> n != 1)
      && AllDigits(r.1[..|NatToDecimal(n)|]) && DecimalValue(r.1[..|NatToDecimal(n)|]) == n
    ensures r.2.JustNow? <==> now - e.timestamp < MINUTE_MS
  {
    ParameterLabelSingular(|e.configuration.parameters|);
    (BaseUrlLabel(e.configuration.baseUrl), ParameterCountLabel(|e.configuration.parameters|),
     FormatTimestamp(e.timestamp, now))
  }
}
