/** The date part of `Date.prototype.toISOString`, the text before the `T`
    that the window's two ends are sent as. Years 0 to 9999 take four digits;
    other years take a sign and at least six digits. */
module IsoFormat {
  import opened Wrappers
  import opened DateRange

  predicate IsDigit(c: char) {
    '0' <= c <= '9'
  }

  predicate AllDigits(s: string) {
    forall i :: 0 <= i < |s| ==> IsDigit(s[i])
  }

  function DigitChar(d: nat): (c: char)
    requires d < 10
    ensures IsDigit(c)
  {
    ('0' as int + d) as char
  }

  function DigitValue(c: char): (d: nat)
    requires IsDigit(c)
    ensures d < 10
  {
    c as int - '0' as int
  }

  function Pow10(k: nat): (p: nat)
    ensures p >= 1
  {
    if k == 0 then 1 else 10 * Pow10(k - 1)
  }

  /** Decimal digits of `n`, left-padded with zeros to at least `width`. */
  function Digits(n: nat, width: nat): (r: string)
    ensures AllDigits(r)
    ensures |r| >= 1 && |r| >= width
    decreases n, width
  {
    if n < 10 && width <= 1 then [DigitChar(n)]
    else Digits(n / 10, if width == 0 then 0 else width - 1) + [DigitChar(n % 10)]
  }

  /** The number a string of decimal digits denotes. */
  function DigitsValue(s: string): nat
    requires AllDigits(s)
  {
    if |s| == 0 then 0 else 10 * DigitsValue(s[..|s| - 1]) + DigitValue(s[|s| - 1])
  }

  /** Reading back the padded digits gives the number. */
  lemma {:induction false} DigitsRoundTrip(n: nat, width: nat)
    ensures DigitsValue(Digits(n, width)) == n
    decreases n, width
  {
    var r := Digits(n, width);
    if n < 10 && width <= 1 {
    } else {
      var w' := if width == 0 then 0 else width - 1;
      DigitsRoundTrip(n / 10, w');
      assert r[..|r| - 1] == Digits(n / 10, w');
    }
  }

  /** A number below `10^width` takes exactly `width` characters. */
  lemma {:induction false} DigitsExactWidth(n: nat, width: nat)
    requires width >= 1 && n < Pow10(width)
    ensures |Digits(n, width)| == width
    decreases width
  {
    if n < 10 && width <= 1 {
    } else {
      assert width >= 2;
      DigitsExactWidth(n / 10, width - 1);
    }
  }

  /** The year field of `toISOString`. */
  function YearText(y: int): (r: string)
    ensures 0 <= y <= 9999 ==> |r| == 4 && AllDigits(r)
    ensures y > 9999 ==> |r| >= 7 && r[0] == '+' && AllDigits(r[1..])
    ensures y < 0 ==> |r| >= 7 && r[0] == '-' && AllDigits(r[1..])
  {
    if 0 <= y <= 9999 then
      DigitsExactWidth(y, 4);
      Digits(y, 4)
    else if y > 9999 then "+" + Digits(y, 6)
    else "-" + Digits(-y, 6)
  }

  /** The date text of a day: year, then month (1-based) and day, each two
      digits, separated by hyphens. */
  function IsoDate(d: CivilDate): (r: string)
    requires ValidToday(d)
    ensures 0 <= d.year <= 9999 ==> |r| == 10
    ensures |r| >= 10 && r[|r| - 6] == '-' && r[|r| - 3] == '-'
  {
    DigitsExactWidth(d.month0 + 1, 2);
    DigitsExactWidth(d.day, 2);
    YearText(d.year) + "-" + Digits(d.month0 + 1, 2) + "-" + Digits(d.day, 2)
  }

  /** Reads a year field written by `YearText`. */
  function ParseYear(s: string): Option<int> {
    if |s| >= 1 && (s[0] == '+' || s[0] == '-') then
      if |s| >= 2 && AllDigits(s[1..]) then
        Some(if s[0] == '+' then DigitsValue(s[1..]) else -(DigitsValue(s[1..]) as int))
      else None
    else if |s| >= 1 && AllDigits(s) then Some(DigitsValue(s))
    else None
  }

  /** Reads date text back: everything before the last six characters is the
      year, and the last six are `-MM-DD`. */
  function ParseIsoDate(s: string): Option<CivilDate> {
    if |s| < 7 || s[|s| - 6] != '-' || s[|s| - 3] != '-' then None
    else
      var mm := s[|s| - 5..|s| - 3];
      var dd := s[|s| - 2..];
      match ParseYear(s[..|s| - 6])
      case None => None
      case Some(y) =>
        if AllDigits(mm) && AllDigits(dd) then
          Some(CivilDate(y, DigitsValue(mm) - 1, DigitsValue(dd)))
        else None
  }

  /** The year field reads back as the year. */
  lemma {:induction false} YearRoundTrip(y: int)
    ensures ParseYear(YearText(y)) == Some(y)
  {
    var t := YearText(y);
    if 0 <= y <= 9999 {
      DigitsRoundTrip(y, 4);
      assert !IsDigit('+') && !IsDigit('-');
    } else if y > 9999 {
      DigitsRoundTrip(y, 6);
      assert t[1..] == Digits(y, 6);
    } else {
      DigitsRoundTrip(-y, 6);
      assert t[1..] == Digits(-y, 6);
    }
  }

  /** Reading a year field, two digits, and two more digits, joined by
      hyphens, gives the three numbers. */
  lemma {:induction false} ParseAssembled(yt: string, mt: string, dt: string, y: int)
    requires ParseYear(yt) == Some(y)
    requires |mt| == 2 && AllDigits(mt) && |dt| == 2 && AllDigits(dt)
    ensures ParseIsoDate(yt + "-" + mt + "-" + dt) == Some(CivilDate(y, DigitsValue(mt) - 1, DigitsValue(dt)))
  {
    var s := yt + "-" + mt + "-" + dt;
    assert s[..|s| - 6] == yt;
    assert s[|s| - 5..|s| - 3] == mt;
    assert s[|s| - 2..] == dt;
  }

  /** Formatting a day and reading the text back gives the day. */
  lemma {:induction false} IsoDateRoundTrip(d: CivilDate)
    requires ValidToday(d)
    ensures ParseIsoDate(IsoDate(d)) == Some(d)
  {
    DigitsExactWidth(d.month0 + 1, 2);
    DigitsExactWidth(d.day, 2);
    YearRoundTrip(d.year);
    DigitsRoundTrip(d.month0 + 1, 2);
    DigitsRoundTrip(d.day, 2);
    ParseAssembled(YearText(d.year), Digits(d.month0 + 1, 2), Digits(d.day, 2), d.year);
  }

  /** The `start_at` and `end_at` texts sent with the request; each reads
      back as the corresponding day of the window. */
  function WindowText(today: CivilDate): (r: (string, string))
    requires ValidToday(today)
    ensures ParseIsoDate(r.0) == Some(GetDateRange(today).start)
    ensures ParseIsoDate(r.1) == Some(GetDateRange(today).end)
  {
    var w := GetDateRange(today);
    IsoDateRoundTrip(w.start);
    IsoDateRoundTrip(w.end);
    (IsoDate(w.start), IsoDate(w.end))
  }

  /** A four-digit year is written as it is. */
  lemma IsoDateExample()
    ensures IsoDate(CivilDate(2024, 1, 26)) == "2024-02-26"
  {
    assert Digits(2, 1) == "2";
    assert Digits(20, 2) == "20";
    assert Digits(202, 3) == "202";
    assert Digits(2024, 4) == "2024";
    assert Digits(2, 2) == "02";
    assert Digits(26, 2) == "26";
  }

  /** A year below 1000 and a one-digit month and day are zero-padded. */
  lemma IsoDatePaddingExample()
    ensures IsoDate(CivilDate(987, 11, 5)) == "0987-12-05"
  {
    assert Digits(0, 1) == "0";
    assert Digits(9, 2) == "09";
    assert Digits(98, 3) == "098";
    assert Digits(987, 4) == "0987";
    assert Digits(12, 2) == "12";
    assert Digits(5, 2) == "05";
  }

  /** Years before 0 take a minus sign and six digits. */
  lemma IsoDateNegativeYearExample()
    ensures IsoDate(CivilDate(-1, 0, 25)) == "-000001-01-25"
  {
    assert Digits(0, 2) == "00";
    assert Digits(0, 3) == "000";
    assert Digits(0, 4) == "0000";
    assert Digits(0, 5) == "00000";
    assert Digits(1, 6) == "000001";
    assert Digits(1, 2) == "01";
    assert Digits(25, 2) == "25";
  }
}
