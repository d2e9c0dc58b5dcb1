/**
 * Calendar dates on the proleptic Gregorian calendar and the English weekday
 * name that `strftime('%A')` gives for them. Session dates are kept as the
 * text of the table ("2025-09-01"); the weekday is computed from the date that
 * text denotes, by counting days from 0001-01-01, which was a Monday.
 */
module Calendar {
  import opened Options
  import opened Clock

  datatype Date = Date(year: nat, month: nat, day: nat)

  predicate IsLeap(y: nat)
  {
    y % 4 == 0 && (y % 100 != 0 || y % 400 == 0)
  }

  function YearLength(y: nat): nat
  {
    if IsLeap(y) then 366 else 365
  }

  function DaysInMonth(y: nat, m: nat): nat
    requires 1 <= m <= 12
  {
    if m == 2 then (if IsLeap(y) then 29 else 28)
    else if m == 4 || m == 6 || m == 9 || m == 11 then 30
    else 31
  }

  predicate ValidDate(d: Date)
  {
    1 <= d.year && 1 <= d.month <= 12 && 1 <= d.day <= DaysInMonth(d.year, d.month)
  }

  function Digits(s: string, lo: nat, hi: nat): (v: nat)
    requires lo <= hi <= |s|
    requires forall k :: lo <= k < hi ==> IsDigit(s[k])
    decreases hi - lo
  {
    if lo == hi then 0 else 10 * Digits(s, lo, hi - 1) + DigitValue(s[hi - 1])
  }

  /** Reads "YYYY-MM-DD"; text that is not in that form or names no real day is not a date. */
  function ParseDate(s: string): (r: Option<Date>)
    ensures r.Some? ==> ValidDate(r.value)
  {
    if |s| == 10 && s[4] == '-' && s[7] == '-'
       && IsDigit(s[0]) && IsDigit(s[1]) && IsDigit(s[2]) && IsDigit(s[3])
       && IsDigit(s[5]) && IsDigit(s[6]) && IsDigit(s[8]) && IsDigit(s[9])
    then
      var d := Date(Digits(s, 0, 4), Digits(s, 5, 7), Digits(s, 8, 10));
      if ValidDate(d) then Some(d) else None
    else
      None
  }

  /** The "YYYY-MM-DD" text of a date with a four-digit year. */
  function FormatDate(d: Date): (s: string)
    requires ValidDate(d) && d.year < 10000
    ensures |s| == 10
  {
    var y, m, dd := d.year, d.month, d.day;
    [DigitChar(y / 10 / 10 / 10), DigitChar(y / 10 / 10 % 10), DigitChar(y / 10 % 10), DigitChar(y % 10), '-',
     DigitChar(m / 10), DigitChar(m % 10), '-', DigitChar(dd / 10), DigitChar(dd % 10)]
  }

  /** Writing a date out and reading it back gives the same date. */
  lemma DateRoundTrip(d: Date)
    requires ValidDate(d) && d.year < 10000
    ensures ParseDate(FormatDate(d)) == Some(d)
  {
    var s := FormatDate(d);
    var y1 := d.year / 10;
    var y2 := y1 / 10;
    assert Digits(s, 0, 4) == d.year by {
      assert Digits(s, 0, 1) == y2 / 10;
      assert Digits(s, 0, 2) == y2;
      assert Digits(s, 0, 3) == y1;
    }
    assert Digits(s, 5, 7) == d.month by {
      assert Digits(s, 5, 6) == d.month / 10;
    }
    assert Digits(s, 8, 10) == d.day by {
      assert Digits(s, 8, 9) == d.day / 10;
    }
  }

  /** Days from 0001-01-01 to the first of January of year `y`. */
  function DaysBeforeYear(y: nat): nat
    requires 1 <= y
  {
    var p := y - 1;
    365 * p + p / 4 - p / 100 + p / 400
  }

  /** Days from the first of January to the first of month `m`. */
  function DaysBeforeMonth(y: nat, m: nat): nat
    requires 1 <= m <= 12
  {
    [0, 31, 59, 90, 120, 151, 181, 212, 243, 273, 304, 334][m - 1]
      + (if m > 2 && IsLeap(y) then 1 else 0)
  }

  /** Days from 0001-01-01 to `d`. */
  function DayNumber(d: Date): nat
    requires ValidDate(d)
  {
    DaysBeforeYear(d.year) + DaysBeforeMonth(d.year, d.month) + d.day - 1
  }

  /** 0 for Monday through 6 for Sunday. */
  function Weekday(d: Date): (w: nat)
    requires ValidDate(d)
    ensures w < 7
  {
    DayNumber(d) % 7
  }

  const WeekdayNames: seq<string> :=
    ["Monday", "Tuesday", "Wednesday", "Thursday", "Friday", "Saturday", "Sunday"]

  /** The full English weekday name of a date, as `strftime('%A')` writes it. */
  function WeekdayName(d: Date): string
    requires ValidDate(d)
  {
    WeekdayNames[Weekday(d)]
  }

  /** The day after `d`, rolling over month and year ends. */
  function NextDay(d: Date): (r: Date)
    requires ValidDate(d)
    ensures ValidDate(r)
  {
    if d.day < DaysInMonth(d.year, d.month) then Date(d.year, d.month, d.day + 1)
    else if d.month < 12 then Date(d.year, d.month + 1, 1)
    else Date(d.year + 1, 1, 1)
  }

  /** Counting one more number adds one multiple of `k` exactly when that number is one. */
  lemma CountStep(p: nat, k: nat)
    requires k == 4 || k == 100 || k == 400
    ensures (p + 1) / k == p / k + (if (p + 1) % k == 0 then 1 else 0)
  {
    var q, r := p / k, p % k;
    assert p == k * q + r && 0 <= r < k;
    if r + 1 == k {
      assert p + 1 == k * (q + 1);
    } else {
      assert p + 1 == k * q + (r + 1);
    }
  }

  /** A multiple of 400 is a multiple of 100, and a multiple of 100 a multiple of 4. */
  lemma MultipleChain(y: nat)
    ensures y % 400 == 0 ==> y % 100 == 0
    ensures y % 100 == 0 ==> y % 4 == 0
  {
    if y % 400 == 0 {
      assert y == 100 * (4 * (y / 400));
    }
    if y % 100 == 0 {
      assert y == 4 * (25 * (y / 100));
    }
  }

  lemma YearStep(y: nat)
    requires 1 <= y
    ensures DaysBeforeYear(y + 1) == DaysBeforeYear(y) + YearLength(y)
  {
    var p := y - 1;
    CountStep(p, 4);
    CountStep(p, 100);
    CountStep(p, 400);
    MultipleChain(y);
  }

  /** Consecutive days have consecutive day numbers, across month and year ends. */
  lemma NextDayNumber(d: Date)
    requires ValidDate(d)
    ensures DayNumber(NextDay(d)) == DayNumber(d) + 1
  {
    if d.day == DaysInMonth(d.year, d.month) && d.month == 12 {
      YearStep(d.year);
    }
  }

  /** The weekday of the next day is the next weekday, Sunday wrapping to Monday. */
  lemma NextWeekday(d: Date)
    requires ValidDate(d)
    ensures Weekday(NextDay(d)) == (Weekday(d) + 1) % 7
  {
    NextDayNumber(d);
    WeekStep(DayNumber(d));
  }

  lemma WeekStep(n: nat)
    ensures (n + 1) % 7 == (n % 7 + 1) % 7
  {
    var q := n / 7;
    assert n == 7 * q + n % 7;
    if n % 7 == 6 {
      assert n + 1 == 7 * (q + 1);
    } else {
      assert n + 1 == 7 * q + (n % 7 + 1);
    }
  }

  /** A worked example: 2025-09-01 is read as that date and falls on a Monday. */
  lemma FirstOfSeptember2025()
    ensures ParseDate("2025-09-01") == Some(Date(2025, 9, 1))
    ensures WeekdayName(Date(2025, 9, 1)) == "Monday"
  {
    DateRoundTrip(Date(2025, 9, 1));
    assert FormatDate(Date(2025, 9, 1)) == "2025-09-01";
    assert DayNumber(Date(2025, 9, 1)) == 739494;
  }
}
