/**
 * The three `strftime` helpers of main.py: `date_as_string` ("%Y-%m-%d"),
 * `datetime_as_string` ("%Y-%m-%d %H:%M") and `time_as_string` ("%H:%M").
 * They are applied to local times: instants already shifted by the display
 * zone's offset, so that their day number and time of day are the local ones.
 */
module Formatting {
  import opened Clock

  /** A proleptic Gregorian date; months run 1..12 and days 1..31. */
  datatype CivilDate = CivilDate(year: int, month: int, day: int)

  /**
   * The Gregorian date of a day number (day 0 is 1970-01-01). The day count
   * is shifted to eras of 400 years that start on 0000-03-01, so that the
   * leap day is the last day of its year.
   */
  function CivilFromDays(days: int): (c: CivilDate)
    ensures 1 <= c.month <= 12 && 1 <= c.day <= 31
  {
    var z := days + 719468;
    var era := z / 146097;
    var doe := z % 146097;
    var yoe := (doe - doe / 1460 + doe / 36524 - doe / 146096) / 365;
    var doy := doe - (365 * yoe + yoe / 4 - yoe / 100);
    var mp := (5 * doy + 2) / 153;
    var d := doy - (153 * mp + 2) / 5 + 1;
    var m := if mp < 10 then mp + 3 else mp - 9;
    CivilDate(yoe + era * 400 + (if m <= 2 then 1 else 0), m, d)
  }

  /** The day number of a Gregorian date: the inverse of CivilFromDays. */
  function DaysFromCivil(c: CivilDate): int
  {
    var y := c.year - (if c.month <= 2 then 1 else 0);
    var era := y / 400;
    var yoe := y - era * 400;
    var doy := (153 * (if c.month > 2 then c.month - 3 else c.month + 9) + 2) / 5 + c.day - 1;
    era * 146097 + yoe * 365 + yoe / 4 - yoe / 100 + doy - 719468
  }

  /** The year of era of a day of era (both counted from 0000-03-01). */
  function YearOfEra(doe: int): int
  {
    (doe - doe / 1460 + doe / 36524 - doe / 146096) / 365
  }

  /** The three divisions of YearOfEra, for a day of era split into blocks. */
  lemma EraQuotients(c: int, q: int, y: int, d: int)
    requires 0 <= c <= 3 && 0 <= q <= 24 && 0 <= y <= 3
    requires 0 <= d < (if y == 3 && (q < 24 || c == 3) then 366 else 365)
    ensures var doe := 36524 * c + 1461 * q + 365 * y + d;
      var rest := 24 * c + q + 365 * y + d;
      var last := c == 3 && q == 24 && y == 3 && d == 365;
      && doe / 1460 == 25 * c + q + (if rest >= 1460 then 1 else 0)
      && doe / 36524 == c + (if last then 1 else 0)
      && doe / 146096 == (if last then 1 else 0)
  {
    var doe := 36524 * c + 1461 * q + 365 * y + d;
    var rest := 24 * c + q + 365 * y + d;
    assert doe == 1460 * (25 * c + q) + rest && 0 <= rest < 2920;
  }

  /**
   * A day of era that lies `d` days into year `y` of the `q`-th four-year block
   * of century `c` has year of era 100c + 4q + y and day of year `d`. Every
   * fourth year is a leap year except the last one of the first three centuries.
   */
  lemma EraDecomposition(c: int, q: int, y: int, d: int)
    requires 0 <= c <= 3 && 0 <= q <= 24 && 0 <= y <= 3
    requires 0 <= d < (if y == 3 && (q < 24 || c == 3) then 366 else 365)
    ensures var doe := 36524 * c + 1461 * q + 365 * y + d;
      var yoe := YearOfEra(doe);
      yoe == 100 * c + 4 * q + y && doe - (365 * yoe + yoe / 4 - yoe / 100) == d
  {
    EraQuotients(c, q, y, d);
    var doe := 36524 * c + 1461 * q + 365 * y + d;
    var rest := 24 * c + q + 365 * y + d;
    var skip := if rest >= 1460 then 1 else 0;
    var yoe := 100 * c + 4 * q + y;
    assert doe / 36524 - doe / 146096 == c;
    assert doe - doe / 1460 + doe / 36524 - doe / 146096 == 365 * yoe + d - skip;
    assert yoe / 4 == 25 * c + q && yoe / 100 == c;
  }

  /** Every day of an era lies in a year of that era, 0..365 days into it. */
  lemma {:induction false} DayOfYearBounds(doe: int)
    requires 0 <= doe < 146097
    ensures var yoe := YearOfEra(doe);
      0 <= yoe < 400 && 0 <= doe - (365 * yoe + yoe / 4 - yoe / 100) <= 365
  {
    var c := if doe / 36524 < 3 then doe / 36524 else 3;
    var r1 := doe - 36524 * c;
    var q := if r1 / 1461 < 24 then r1 / 1461 else 24;
    var r2 := r1 - 1461 * q;
    var y := if r2 / 365 < 3 then r2 / 365 else 3;
    EraDecomposition(c, q, y, r2 - 365 * y);
  }

  /** The intermediate quantities of CivilFromDays, with their ranges. */
  lemma CivilParts(days: int) returns (era: int, yoe: int, doy: int, mp: int)
    ensures 0 <= yoe < 400 && 0 <= doy <= 365 && 0 <= mp <= 11
    ensures days + 719468 == era * 146097 + yoe * 365 + yoe / 4 - yoe / 100 + doy
    ensures var c := CivilFromDays(days);
      && c.month == (if mp < 10 then mp + 3 else mp - 9)
      && c.day == doy - (153 * mp + 2) / 5 + 1
      && c.year == yoe + era * 400 + (if c.month <= 2 then 1 else 0)
  {
    var z := days + 719468;
    era := z / 146097;
    var doe := z % 146097;
    DayOfYearBounds(doe);
    yoe := YearOfEra(doe);
    doy := doe - (365 * yoe + yoe / 4 - yoe / 100);
    mp := (5 * doy + 2) / 153;
  }

  /** The date printed for a day number names that day and no other. */
  lemma CivilRoundTrip(days: int)
    ensures DaysFromCivil(CivilFromDays(days)) == days
  {
    var era, yoe, doy, mp := CivilParts(days);
    var c := CivilFromDays(days);
    var y := c.year - (if c.month <= 2 then 1 else 0);
    assert y == yoe + era * 400;
    assert y / 400 == era && y - era * 400 == yoe;
    assert (if c.month > 2 then c.month - 3 else c.month + 9) == mp;
    assert (153 * mp + 2) / 5 + c.day - 1 == doy;
    assert DaysFromCivil(c) == era * 146097 + yoe * 365 + yoe / 4 - yoe / 100 + doy - 719468;
  }

  /** Distinct day numbers print as distinct dates. */
  lemma CivilInjective(a: int, b: int)
    requires a != b
    ensures CivilFromDays(a) != CivilFromDays(b)
  {
    CivilRoundTrip(a);
    CivilRoundTrip(b);
  }

  predicate IsDigit(ch: char)
  {
    '0' <= ch <= '9'
  }

  /** Decimal digits of `n`, most significant first, without leading zeros. */
  function Digits(n: nat): (s: string)
    ensures 1 <= |s| && forall i :: 0 <= i < |s| ==> IsDigit(s[i])
    ensures n < 10 <==> |s| == 1
    ensures 10 <= n < 100 ==> |s| == 2
  {
    if n < 10 then ["0123456789"[n]] else Digits(n / 10) + ["0123456789"[n % 10]]
  }

  function Zeros(k: nat): (s: string)
    ensures |s| == k && forall i :: 0 <= i < k ==> s[i] == '0'
  {
    if k == 0 then "" else "0" + Zeros(k - 1)
  }

  /** The digits of `n`, zero-padded on the left to at least `width` characters. */
  function ZeroPadded(n: nat, width: nat): (s: string)
    ensures |s| == if |Digits(n)| < width then width else |Digits(n)|
    ensures forall i :: 0 <= i < |s| ==> IsDigit(s[i])
  {
    var digits := Digits(n);
    if |digits| < width then Zeros(width - |digits|) + digits else digits
  }

  /** "%Y": the year, zero-padded to four digits. */
  function YearText(year: int): string
  {
    if year < 0 then "-" + ZeroPadded(-year, 4) else ZeroPadded(year, 4)
  }

  /** `date_as_string`: "%Y-%m-%d" of the local day `day`. */
  function DateText(day: int): (s: string)
    ensures 10 <= |s| && s[|s| - 3] == '-' && s[|s| - 6] == '-' && IsDigit(s[|s| - 1])
    ensures forall i :: 0 <= i < |s| ==> IsDigit(s[i]) || s[i] == '-'
  {
    var c := CivilFromDays(day);
    YearText(c.year) + "-" + ZeroPadded(c.month, 2) + "-" + ZeroPadded(c.day, 2)
  }

  /** `time_as_string`: "%H:%M" of a local time. */
  function TimeText(local: Instant): (s: string)
    ensures |s| == 5 && s[2] == ':'
    ensures forall i :: 0 <= i < 5 && i != 2 ==> IsDigit(s[i])
  {
    ZeroPadded(HourOf(local), 2) + ":" + ZeroPadded(MinuteOf(local), 2)
  }

  /** The number a string of decimal digits spells, most significant digit first. */
  function DecimalValue(s: string): nat
    requires forall i :: 0 <= i < |s| ==> IsDigit(s[i])
  {
    if s == [] then 0
    else
      assert IsDigit(s[|s| - 1]);
      DecimalValue(s[..|s| - 1]) * 10 + (s[|s| - 1] as int - '0' as int)
  }

  function Pow10(k: nat): nat
  {
    if k == 0 then 1 else 10 * Pow10(k - 1)
  }

  /** The digits of `n` spell `n`. */
  lemma {:induction false} DigitsValue(n: nat)
    ensures DecimalValue(Digits(n)) == n
  {
    var s := Digits(n);
    if n >= 10 {
      DigitsValue(n / 10);
      assert s[..|s| - 1] == Digits(n / 10);
    }
  }

  /** A number below 10^k, for k at least 1, has at most k digits. */
  lemma {:induction false} DigitsWidth(n: nat, k: nat)
    requires 1 <= k && n < Pow10(k)
    ensures |Digits(n)| <= k
  {
    if n >= 10 {
      DigitsWidth(n / 10, k - 1);
    }
  }

  /** Zeros in front of a digit string do not change the number it spells. */
  lemma {:induction false} LeadingZeros(zeros: string, s: string)
    requires forall i :: 0 <= i < |zeros| ==> zeros[i] == '0'
    requires forall i :: 0 <= i < |s| ==> IsDigit(s[i])
    ensures DecimalValue(zeros + s) == DecimalValue(s)
    decreases |zeros| + |s|
  {
    var t := zeros + s;
    if s == [] {
      assert t == zeros;
      if zeros != [] {
        LeadingZeros(zeros[..|zeros| - 1], s);
        assert zeros[..|zeros| - 1] + s == t[..|t| - 1];
      }
    } else {
      LeadingZeros(zeros, s[..|s| - 1]);
      assert t[..|t| - 1] == zeros + s[..|s| - 1];
    }
  }

  /**
   * Zero-padding keeps the number: the padded text spells `n`, and it is
   * exactly `width` long when `n` is below 10^width.
   */
  lemma ZeroPaddedValue(n: nat, width: nat)
    ensures DecimalValue(ZeroPadded(n, width)) == n
    ensures 1 <= width && n < Pow10(width) ==> |ZeroPadded(n, width)| == width
  {
    DigitsValue(n);
    if |Digits(n)| < width {
      LeadingZeros(Zeros(width - |Digits(n)|), Digits(n));
    }
    if 1 <= width && n < Pow10(width) {
      DigitsWidth(n, width);
    }
  }

  /** "%H:%M" spells the hour and the minute of the local time. */
  lemma TimeTextValue(local: Instant)
    ensures var s := TimeText(local);
      DecimalValue(s[..2]) == HourOf(local) && DecimalValue(s[3..]) == MinuteOf(local)
  {
    var hour, minute := ZeroPadded(HourOf(local), 2), ZeroPadded(MinuteOf(local), 2);
    ZeroPaddedValue(HourOf(local), 2);
    ZeroPaddedValue(MinuteOf(local), 2);
    var s := TimeText(local);
    assert s[..2] == hour && s[3..] == minute;
  }

  /** Two local times print the same "%H:%M" exactly when their hours and minutes agree. */
  lemma TimeTextInjective(a: Instant, b: Instant)
    ensures TimeText(a) == TimeText(b) <==> HourOf(a) == HourOf(b) && MinuteOf(a) == MinuteOf(b)
  {
    TimeTextValue(a);
    TimeTextValue(b);
  }

  /**
   * For a year from 0 to 9999, "%Y-%m-%d" is ten characters that spell the
   * year, the month and the day of the Gregorian date of `day`.
   */
  lemma DateTextValue(day: int)
    requires 0 <= CivilFromDays(day).year < 10000
    ensures var s, c := DateText(day), CivilFromDays(day);
      && |s| == 10 && s[4] == '-' && s[7] == '-'
      && DecimalValue(s[..4]) == c.year && DecimalValue(s[5..7]) == c.month && DecimalValue(s[8..]) == c.day
  {
    var c := CivilFromDays(day);
    var year, month, date := ZeroPadded(c.year, 4), ZeroPadded(c.month, 2), ZeroPadded(c.day, 2);
    ZeroPaddedValue(c.year, 4);
    ZeroPaddedValue(c.month, 2);
    ZeroPaddedValue(c.day, 2);
    assert Pow10(4) == 10000 && Pow10(2) == 100;
    var s := DateText(day);
    assert s == year + "-" + month + "-" + date;
    assert s[..4] == year && s[5..7] == month && s[8..] == date;
  }

  /** For years from 0 to 9999, two days print the same "%Y-%m-%d" only when they are the same day. */
  lemma DateTextInjective(a: int, b: int)
    requires 0 <= CivilFromDays(a).year < 10000 && 0 <= CivilFromDays(b).year < 10000
    ensures DateText(a) == DateText(b) <==> a == b
  {
    DateTextValue(a);
    DateTextValue(b);
    if a != b {
      CivilInjective(a, b);
    }
  }

  /** `datetime_as_string`: "%Y-%m-%d %H:%M" of a local time. */
  function DateTimeText(local: Instant): string
  {
    DateText(DayOf(local)) + " " + TimeText(local)
  }
}
