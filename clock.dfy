/**
 * Times of day. A session's start and end are kept as the text of the table
 * ("09:00"); comparisons use the minute of the day that the text denotes.
 */
module Clock {
  import opened Options

  const MinutesPerDay: nat := 1440

  predicate IsDigit(c: char)
  {
    '0' <= c <= '9'
  }

  function DigitValue(c: char): (v: nat)
    requires IsDigit(c)
    ensures v < 10
  {
    (c as int) - ('0' as int)
  }

  function DigitChar(v: nat): (c: char)
    requires v < 10
    ensures IsDigit(c) && DigitValue(c) == v
  {
    (('0' as int) + v) as char
  }

  /** Minute of the day for hour `h` and minute `m`, if both are in range. */
  function Compose(h: nat, m: nat): Option<nat>
  {
    if h < 24 && m < 60 then Some(60 * h + m) else None
  }

  /**
   * Reads "H:MM" or "HH:MM" on the 24-hour clock as minutes since midnight;
   * any other text is not a time.
   */
  function ParseClock(s: string): (r: Option<nat>)
    ensures r.Some? ==> r.value < MinutesPerDay
  {
    if |s| == 4 && IsDigit(s[0]) && s[1] == ':' && IsDigit(s[2]) && IsDigit(s[3]) then
      Compose(DigitValue(s[0]), 10 * DigitValue(s[2]) + DigitValue(s[3]))
    else if |s| == 5 && IsDigit(s[0]) && IsDigit(s[1]) && s[2] == ':' && IsDigit(s[3]) && IsDigit(s[4]) then
      Compose(10 * DigitValue(s[0]) + DigitValue(s[1]), 10 * DigitValue(s[3]) + DigitValue(s[4]))
    else
      None
  }

  /** The canonical "HH:MM" text of a minute of the day. */
  function FormatClock(t: nat): (s: string)
    requires t < MinutesPerDay
    ensures |s| == 5 && s[2] == ':'
  {
    var h, m := t / 60, t % 60;
    [DigitChar(h / 10), DigitChar(h % 10), ':', DigitChar(m / 10), DigitChar(m % 10)]
  }

  /** Formatting a minute and reading it back gives the same minute. */
  lemma ClockRoundTrip(t: nat)
    requires t < MinutesPerDay
    ensures ParseClock(FormatClock(t)) == Some(t)
  {
    var s := FormatClock(t);
    var h, m := t / 60, t % 60;
    assert DigitValue(s[0]) == h / 10 && DigitValue(s[1]) == h % 10;
    assert DigitValue(s[3]) == m / 10 && DigitValue(s[4]) == m % 10;
  }

  /** Five-character time text that parses is the canonical text of its minute. */
  lemma ClockCanonical(s: string)
    requires |s| == 5 && ParseClock(s).Some?
    ensures FormatClock(ParseClock(s).value) == s
  {
    var h := 10 * DigitValue(s[0]) + DigitValue(s[1]);
    var m := 10 * DigitValue(s[3]) + DigitValue(s[4]);
    var t := 60 * h + m;
    assert t / 60 == h && t % 60 == m;
    var f := FormatClock(t);
    assert DigitChar(h / 10) == s[0] && DigitChar(h % 10) == s[1];
    assert DigitChar(m / 10) == s[3] && DigitChar(m % 10) == s[4];
    assert f == s;
  }
}
