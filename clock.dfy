/** The countdown label: `format_time`, which renders a count of seconds as
    the minute and second fields of a UTC clock, "MM:SS". */
module Clock {
  import opened Arith

  predicate IsDigit(c: char) {
    '0' <= c <= '9'
  }

  /** The value of a decimal digit character. */
  function DigitValue(c: char): int {
    c as int - '0' as int
  }

  /** The character of the decimal digit d. */
  function DigitChar(d: int): (c: char)
    requires 0 <= d < 10
    ensures IsDigit(c) && DigitValue(c) == d
  {
    ('0' as int + d) as char
  }

  /** A number below 100 written with exactly two digits, as the strftime
      directives %M and %S write it. */
  function TwoDigits(n: int): (r: string)
    requires 0 <= n < 100
    ensures |r| == 2 && IsDigit(r[0]) && IsDigit(r[1])
    ensures DigitValue(r[0]) * 10 + DigitValue(r[1]) == n
  {
    [DigitChar(n / 10), DigitChar(n % 10)]
  }

  /** `format_time(seconds)`: strftime('%M:%S', gmtime(seconds)). gmtime splits
      the count with floor division (Dafny's `/` and `%` agree with it for a
      positive divisor), and the format keeps only the minute and second
      fields: whole hours are dropped, and a negative count reads backwards
      from the end of an hour. */
  function FormatTime(seconds: int): string {
    TwoDigits(seconds / 60 % 60) + ":" + TwoDigits(seconds % 60)
  }

  /** Every label is five characters "MM:SS" with both fields below 60. */
  lemma FormatTimeShape(seconds: int)
    ensures var r := FormatTime(seconds);
      |r| == 5 && r[2] == ':' && IsDigit(r[0]) && IsDigit(r[1]) && IsDigit(r[3]) && IsDigit(r[4])
      && DigitValue(r[0]) * 10 + DigitValue(r[1]) < 60 && DigitValue(r[3]) * 10 + DigitValue(r[4]) < 60
  {
  }

  /** Reads an "MM:SS" label back as a number of seconds. */
  function ClockValue(r: string): int
    requires |r| == 5
  {
    (DigitValue(r[0]) * 10 + DigitValue(r[1])) * 60 + DigitValue(r[3]) * 10 + DigitValue(r[4])
  }

  /** The label is the count of seconds modulo one hour: reading it back
      gives `seconds % 3600`. */
  lemma FormatTimeRoundTrip(seconds: int)
    ensures |FormatTime(seconds)| == 5
    ensures ClockValue(FormatTime(seconds)) == seconds % 3600
  {
    var q := seconds / 60;
    var sec := seconds % 60;
    var min := q % 60;
    assert seconds == q * 60 + sec;
    assert q == (q / 60) * 60 + min;
    assert seconds == (q / 60) * 3600 + (min * 60 + sec);
    DivModUnique(seconds, 3600, q / 60, min * 60 + sec);
  }

  /** Within one hour the label is the minutes, a colon and the seconds, and
      different counts give different labels. */
  lemma FormatTimeWithinHour(a: int, b: int)
    requires 0 <= a < 3600 && 0 <= b < 3600
    ensures FormatTime(a) == TwoDigits(a / 60) + ":" + TwoDigits(a % 60)
    ensures FormatTime(a) == FormatTime(b) ==> a == b
  {
    DivBounds(a, 60);
    DivModUnique(a / 60, 60, 0, a / 60);
    if FormatTime(a) == FormatTime(b) {
      FormatTimeRoundTrip(a);
      FormatTimeRoundTrip(b);
      DivModUnique(a, 3600, 0, a);
      DivModUnique(b, 3600, 0, b);
    }
  }

  /** Whole hours do not show: a count and that count plus an hour give the
      same label. */
  lemma FormatTimeDropsHours(seconds: int)
    ensures FormatTime(seconds + 3600) == FormatTime(seconds)
  {
    DivModUnique(seconds + 3600, 60, seconds / 60 + 60, seconds % 60);
    DivModUnique(seconds / 60 + 60, 60, seconds / 60 / 60 + 1, seconds / 60 % 60);
  }

  /** The label of a finished session. */
  lemma ZeroLabel()
    ensures FormatTime(0) == "00:00"
  {
  }

  /** Labels that the timer shows at its edges: a 60-minute session reads
      "00:00" like a finished one, one second below zero reads "59:59", and
      the default session one second in reads "19:59". */
  lemma EdgeLabels()
    ensures FormatTime(3600) == "00:00"
    ensures FormatTime(-1) == "59:59"
    ensures FormatTime(1199) == "19:59"
  {
    FormatTimeDropsHours(0);
  }
}
