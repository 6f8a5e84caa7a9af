/** The query window computed from the current UTC date. Months are counted
    from zero, as `getUTCMonth` reports them. */
module DateRange {

  /** A calendar day in UTC; `month0` is 0 for January through 11 for December. */
  datatype CivilDate = CivilDate(year: int, month0: int, day: int)

  /** The window passed to the affiliate service as `start_at` and `end_at`. */
  datatype DateWindow = DateWindow(start: CivilDate, end: CivilDate)

  /** A day the UTC clock can report. */
  predicate ValidToday(d: CivilDate) {
    0 <= d.month0 <= 11 && 1 <= d.day <= 31
  }

  /** Chronological order of days whose month is normalised. */
  predicate DateLe(a: CivilDate, b: CivilDate) {
    a.year < b.year
    || (a.year == b.year && a.month0 < b.month0)
    || (a.year == b.year && a.month0 == b.month0 && a.day <= b.day)
  }

  /** Strict chronological order. */
  predicate DateLt(a: CivilDate, b: CivilDate) {
    DateLe(a, b) && a != b
  }

  /** `Date.UTC` reads a year from 0 to 99 as a year of the 1900s. */
  function FullYear(y: int): (r: int)
    ensures 0 <= y <= 99 ==> r == 1900 + y
    ensures (y < 0 || y > 99) ==> r == y
  {
    if 0 <= y <= 99 then 1900 + y else y
  }

  /** `Date.UTC(y, m, d)` for a day that exists in every month: the year is
      read through `FullYear`, then an out-of-range month carries into the
      year (floor division and a non-negative remainder, which Dafny's
      Euclidean `/` and `%` give for the divisor 12). Overflow of the day
      into the next month is not modelled. */
  function Utc(y: int, m: int, d: int): (r: CivilDate)
    requires 1 <= d <= 28
    ensures 0 <= r.month0 <= 11 && r.day == d
    ensures FullYear(y) * 12 + m == r.year * 12 + r.month0
  {
    CivilDate(FullYear(y) + m / 12, m % 12, d)
  }

  /** The years in which `Date.UTC`'s two-digit rule never fires while the
      window is computed (neither the end's nor the start's year argument
      lies in 0..99). */
  predicate OutsideTwoDigitYears(y: int) {
    y <= -2 || y >= 101
  }

  /** The window as the program computes it: step back one month when the
      current day is at most 25, put the end on the 25th of the month after
      that, and put the start on the 26th of the end's own month. */
  function GetDateRange(today: CivilDate): (w: DateWindow)
    requires ValidToday(today)
    ensures w.end.day == 25 && 0 <= w.end.month0 <= 11
    ensures w.start.day == 26 && w.start.month0 == w.end.month0
    ensures w.start.year == FullYear(w.end.year)
  {
    var (endYear, endMonth) :=
      if today.day <= 25 then
        (if today.month0 - 1 < 0 then (today.year - 1, 11) else (today.year, today.month0 - 1))
      else (today.year, today.month0);
    var end := Utc(endYear, endMonth + 1, 25);
    var start := Utc(end.year, end.month0, 26);
    DateWindow(start, end)
  }

  /** On or before the 25th, the end lies in the current month: the step back
      (with its January wrap) is undone by the following `+ 1`. */
  lemma EndWhenOnOrBefore25th(today: CivilDate)
    requires ValidToday(today) && OutsideTwoDigitYears(today.year)
    requires today.day <= 25
    ensures GetDateRange(today).end == CivilDate(today.year, today.month0, 25)
  {
  }

  /** After the 25th, the end lies in the following month, and December
      wraps to January of the next year. */
  lemma EndWhenAfter25th(today: CivilDate)
    requires ValidToday(today) && OutsideTwoDigitYears(today.year)
    requires today.day > 25
    ensures today.month0 < 11 ==> GetDateRange(today).end == CivilDate(today.year, today.month0 + 1, 25)
    ensures today.month0 == 11 ==> GetDateRange(today).end == CivilDate(today.year + 1, 0, 25)
  {
  }

  /** The end is the first 25th on or after today: it is not before today,
      and every 25th on or after today is no earlier than it. */
  lemma EndIsFirst25thFromToday(today: CivilDate)
    requires ValidToday(today) && OutsideTwoDigitYears(today.year)
    ensures DateLe(today, GetDateRange(today).end)
    ensures forall y, m :: 0 <= m <= 11 && DateLe(today, CivilDate(y, m, 25))
              ==> DateLe(GetDateRange(today).end, CivilDate(y, m, 25))
  {
    if today.day <= 25 {
      EndWhenOnOrBefore25th(today);
    } else {
      EndWhenAfter25th(today);
    }
  }

  /** The start is the day after the end, so the window as sent is inverted. */
  lemma StartIsDayAfterEnd(today: CivilDate)
    requires ValidToday(today) && OutsideTwoDigitYears(today.year)
    ensures GetDateRange(today).start == GetDateRange(today).end.(day := 26)
    ensures DateLt(GetDateRange(today).end, GetDateRange(today).start)
  {
    EndIsFirst25thFromToday(today);
  }

  /** Inside the two-digit band the program's answer is shifted into the
      1900s: on 10 June of year 50 the end lands in 1950. */
  lemma TwoDigitYearShift()
    ensures GetDateRange(CivilDate(50, 5, 10)).end == CivilDate(1950, 5, 25)
    ensures GetDateRange(CivilDate(0, 0, 10)).end == CivilDate(0, 0, 25)
    ensures GetDateRange(CivilDate(0, 0, 10)).start == CivilDate(1900, 0, 26)
  {
    assert Utc(50, 5, 25) == CivilDate(1950, 5, 25) by { assert 5 / 12 == 0 && 5 % 12 == 5; }
    assert Utc(-1, 12, 25) == CivilDate(0, 0, 25) by { assert 12 / 12 == 1 && 12 % 12 == 0; }
    assert Utc(0, 0, 26) == CivilDate(1900, 0, 26) by { assert 0 / 12 == 0 && 0 % 12 == 0; }
  }

  /** The window the billing period calls for: the same end, and a start on
      the 26th of the month BEFORE the end's month. */
  function IntendedDateRange(today: CivilDate): (w: DateWindow)
    requires ValidToday(today)
    ensures w.end == GetDateRange(today).end
    ensures w.start.day == 26
    ensures w.start.year * 12 + w.start.month0 + 1 == FullYear(w.end.year) * 12 + w.end.month0
  {
    var end := GetDateRange(today).end;
    var start := Utc(end.year, end.month0 - 1, 26);
    DateWindow(start, end)
  }

  /** The intended window runs from the 26th of one month to the 25th of the
      next, and it contains today. */
  lemma IntendedWindowContainsToday(today: CivilDate)
    requires ValidToday(today) && OutsideTwoDigitYears(today.year)
    ensures DateLe(IntendedDateRange(today).start, today)
    ensures DateLe(today, IntendedDateRange(today).end)
    ensures DateLt(IntendedDateRange(today).start, IntendedDateRange(today).end)
  {
    EndIsFirst25thFromToday(today);
    if today.day <= 25 {
      EndWhenOnOrBefore25th(today);
    } else {
      EndWhenAfter25th(today);
    }
  }

  /** A day before the cutoff: the intended window is 26 February to
      25 March 2024; the program sends 26 March to 25 March. */
  lemma BillingPeriodBeforeCutoff()
    ensures IntendedDateRange(CivilDate(2024, 2, 10)) == DateWindow(CivilDate(2024, 1, 26), CivilDate(2024, 2, 25))
    ensures GetDateRange(CivilDate(2024, 2, 10)) == DateWindow(CivilDate(2024, 2, 26), CivilDate(2024, 2, 25))
  {
    assert Utc(2024, 2, 25) == CivilDate(2024, 2, 25) by { assert 2 / 12 == 0 && 2 % 12 == 2; }
    assert Utc(2024, 2, 26) == CivilDate(2024, 2, 26) by { assert 2 / 12 == 0 && 2 % 12 == 2; }
    assert Utc(2024, 1, 26) == CivilDate(2024, 1, 26) by { assert 1 / 12 == 0 && 1 % 12 == 1; }
  }

  /** A day after the cutoff: the end is 25 April 2024 and the intended
      start is 26 March. */
  lemma BillingPeriodAfterCutoff()
    ensures IntendedDateRange(CivilDate(2024, 2, 26)) == DateWindow(CivilDate(2024, 2, 26), CivilDate(2024, 3, 25))
  {
    assert Utc(2024, 3, 25) == CivilDate(2024, 3, 25) by { assert 3 / 12 == 0 && 3 % 12 == 3; }
    assert Utc(2024, 2, 26) == CivilDate(2024, 2, 26) by { assert 2 / 12 == 0 && 2 % 12 == 2; }
  }

  /** On the same day the program sends 26 April to 25 April. */
  lemma ProgramWindowAfterCutoff()
    ensures GetDateRange(CivilDate(2024, 2, 26)) == DateWindow(CivilDate(2024, 3, 26), CivilDate(2024, 3, 25))
  {
    assert Utc(2024, 3, 25) == CivilDate(2024, 3, 25) by { assert 3 / 12 == 0 && 3 % 12 == 3; }
    assert Utc(2024, 3, 26) == CivilDate(2024, 3, 26) by { assert 3 / 12 == 0 && 3 % 12 == 3; }
  }

  /** A January day before the cutoff: the step back crosses the year
      boundary and the `+ 1` crosses it again. The intended window starts on
      26 December 2023. */
  lemma BillingPeriodAcrossYear()
    ensures IntendedDateRange(CivilDate(2024, 0, 10)) == DateWindow(CivilDate(2023, 11, 26), CivilDate(2024, 0, 25))
    ensures GetDateRange(CivilDate(2024, 0, 10)) == DateWindow(CivilDate(2024, 0, 26), CivilDate(2024, 0, 25))
  {
    assert Utc(2023, 12, 25) == CivilDate(2024, 0, 25) by { assert 12 / 12 == 1 && 12 % 12 == 0; }
    assert Utc(2024, 0, 26) == CivilDate(2024, 0, 26) by { assert 0 / 12 == 0 && 0 % 12 == 0; }
    assert Utc(2024, -1, 26) == CivilDate(2023, 11, 26) by { assert -1 / 12 == -1 && -1 % 12 == 11; }
  }
}
