/** `calculateYearsOfExperience` (lib/utils.ts): whole years from a start
    date to today, at least one. Dates are (year, month, day) triples; the
    parse of the start text is a parameter (None for a text that does not
    parse to a date) and so is today. */
module Utils {
  import opened Wrappers

  datatype CalendarDate = CalendarDate(year: int, month: int, day: int)

  function Max(a: int, b: int): int {
    if a >= b then a else b
  }

  /** None exactly for a start that does not parse; otherwise at least 1
      and never more than the difference of the years, when that is 1 or
      more. */
  function YearsOfExperience(start: Option<CalendarDate>, now: CalendarDate): (r: Option<int>)
    ensures r.None? <==> start.None?
    ensures r.Some? ==> 1 <= r.value <= Max(1, now.year - start.value.year)
  {
    match start
    case None => None
    case Some(s) =>
      var years := now.year - s.year;
      var monthDiff := now.month - s.month;
      var dayDiff := now.day - s.day;
      var adjusted := if monthDiff < 0 || (monthDiff == 0 && dayDiff < 0) then years - 1 else years;
      Some(Max(1, adjusted))
  }

  /** `a` is on or before `b` in calendar order. */
  predicate OnOrBefore(a: CalendarDate, b: CalendarDate) {
    a.year < b.year || (a.year == b.year && (a.month < b.month || (a.month == b.month && a.day <= b.day)))
  }

  /** The n-th anniversary of a date. */
  function Anniversary(s: CalendarDate, n: int): CalendarDate {
    CalendarDate(s.year + n, s.month, s.day)
  }

  /** The result is the number of anniversaries of the start reached by
      today (the n whose n-th anniversary is on or before today and whose
      next one is not), raised to 1 when that number is smaller. */
  lemma YearsAreAnniversaries(s: CalendarDate, now: CalendarDate)
    ensures exists n :: OnOrBefore(Anniversary(s, n), now) && !OnOrBefore(Anniversary(s, n + 1), now)
                     && YearsOfExperience(Some(s), now) == Some(Max(1, n))
  {
    var years := now.year - s.year;
    var n := if now.month < s.month || (now.month == s.month && now.day < s.day) then years - 1 else years;
    assert OnOrBefore(Anniversary(s, n), now) && !OnOrBefore(Anniversary(s, n + 1), now);
  }

  /** The month and day of `a` come strictly before those of `b`. */
  predicate EarlierInYear(a: CalendarDate, b: CalendarDate) {
    a.month < b.month || (a.month == b.month && a.day < b.day)
  }

  /** An unparseable start gives no answer; otherwise the answer is the year
      difference, one less before the anniversary, and never below 1 nor
      above the plain year difference. */
  lemma YearsBounds(start: Option<CalendarDate>, now: CalendarDate)
    ensures YearsOfExperience(start, now).Some? <==> start.Some?
    ensures start.Some? ==> var s, r := start.value, YearsOfExperience(start, now).value;
      && r >= 1
      && r <= Max(1, now.year - s.year)
      && r == (if EarlierInYear(now, s) then Max(1, now.year - s.year - 1) else Max(1, now.year - s.year))
  {
  }

  /** Later todays never give fewer years. */
  lemma YearsMonotone(s: CalendarDate, now: CalendarDate, later: CalendarDate)
    requires OnOrBefore(now, later)
    ensures YearsOfExperience(Some(s), now).value <= YearsOfExperience(Some(s), later).value
  {
  }
}
