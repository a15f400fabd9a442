/**
 * Concrete occurrences from the repository's test calendar, described in the
 * Europe/Vilnius summer offset (UTC+3, in force for all of them).
 */
module Scenarios {
  import opened Results
  import opened Clock
  import opened Formatting
  import opened Description
  import opened Digest

  /** Eastern European Summer Time. */
  function Eest(t: Instant): int
  {
    3 * 3600
  }

  /** "test3": 2018-10-03 08:00 to 2018-10-04 07:00 in Berlin (UTC+2), a timed event across midnight. */
  const Test3: Event := Event(DateTime(17807 * Day + 6 * Hour), DateTime(17808 * Day + 5 * Hour), "test3", None, false)

  /** The local (UTC+3) start and end of "test3": 09:00 on 2018-10-03 and 08:00 on 2018-10-04. */
  const Test3Start: Instant := 17807 * Day + 9 * Hour
  const Test3End: Instant := 17808 * Day + 8 * Hour

  const WrittenFields: seq<Field> := [Lit("*test3* from "), DateTimeField(Test3Start), Lit(" to "), TimeField(Test3End)]
  const CorrectedFields: seq<Field> := [Lit("*test3* from "), DateTimeField(Test3Start), Lit(" to "), DateTimeField(Test3End)]

  lemma Test3LocalTimes()
    ensures LocalStart(Test3, Eest) == Test3Start && LocalEnd(Test3, Eest) == Test3End
    ensures DayOf(Test3Start) == 17807 && DayOf(Test3End) == 17808
  {
  }

  lemma Test3LayoutAsWritten()
    ensures LayoutAsWritten(Test3, Eest) == Ok(WrittenFields)
  {
    Test3LocalTimes();
    assert "*" + Test3.summary + "* from " == "*test3* from ";
    assert WrittenFields + [] == WrittenFields;
  }

  lemma Test3Layout()
    ensures Layout(Test3, Eest) == Ok(CorrectedFields)
  {
    Test3LocalTimes();
    assert "*" + Test3.summary + "* from " == "*test3* from ";
    assert CorrectedFields + [] == CorrectedFields;
  }

  lemma Test3StartText()
    ensures DateTimeText(Test3Start) == "2018-10-03" + " " + "09:00"
  {
    OnDay(17807, 9 * Hour);
    EarlyHourText(Test3Start, 9);
    Date20181003();
  }

  lemma Test3EndTime()
    ensures TimeText(Test3End) == "08:00"
  {
    OnDay(17808, 8 * Hour);
    EarlyHourText(Test3End, 8);
  }

  lemma Test3EndDateTime()
    ensures DateTimeText(Test3End) == "2018-10-04" + " " + "08:00"
  {
    Test3EndTime();
    OnDay(17808, 8 * Hour);
    Date20181004();
  }

  lemma EarlyHourText(t: Instant, hour: nat)
    requires hour < 10 && HourOf(t) == hour && MinuteOf(t) == 0
    ensures TimeText(t) == ['0', "0123456789"[hour], ':', '0', '0']
  {
    Padded(hour);
    Padded(0);
  }

  /**
   * As written, the end date of "test3" is lost: the description reads as if
   * the event ended at 08:00 on the day it started, an hour before its start.
   */
  lemma CrossDayEndDateDropped()
    ensures DescribeAsWritten(Test3, Eest) == Ok("*test3* from " + (DateTimeText(Test3Start) + (" to " + TimeText(Test3End))))
    ensures DescribeAsWritten(Test3, Eest) == Ok("*test3* from " + ("2018-10-03" + " " + "09:00" + (" to " + "08:00")))
  {
    Test3StartText();
    Test3EndTime();
    Test3LayoutAsWritten();
    RenderOfFour(WrittenFields);
    TextOfFields(Test3Start, Test3End);
    assert DescribeAsWritten(Test3, Eest) == Ok(Render(WrittenFields));
  }

  /** Corrected, "test3" shows both its start and its end with their dates. */
  lemma CrossDayEndDateShown()
    ensures Describe(Test3, Eest) == Ok("*test3* from " + (DateTimeText(Test3Start) + (" to " + DateTimeText(Test3End))))
    ensures Describe(Test3, Eest) == Ok("*test3* from " + ("2018-10-03" + " " + "09:00" + (" to " + ("2018-10-04" + " " + "08:00"))))
  {
    Test3StartText();
    Test3EndDateTime();
    Test3Layout();
    RenderOfFour(CorrectedFields);
    TextOfFields(Test3Start, Test3End);
    assert Describe(Test3, Eest) == Ok(Render(CorrectedFields));
  }

  lemma TextOfFields(start: Instant, end: Instant)
    ensures FieldText(DateTimeField(start)) == DateTimeText(start)
    ensures FieldText(DateTimeField(end)) == DateTimeText(end)
    ensures FieldText(TimeField(end)) == TimeText(end)
  {
  }

  lemma Padded(n: nat)
    requires n < 10
    ensures ZeroPadded(n, 2) == "0" + ["0123456789"[n]]
  {
  }

  /** Day numbers 17805..17835 are the days of October 2018. */
  lemma October2018(dd: int)
    requires 1 <= dd <= 31
    ensures CivilFromDays(17804 + dd) == CivilDate(2018, 10, dd)
  {
    var z := 17804 + dd + 719468;
    assert z / 146097 == 5 && z % 146097 == 6787 + dd;
    var doe := 6787 + dd;
    assert doe / 1460 == 4 && doe / 36524 == 0 && doe / 146096 == 0;
    assert (doe - 4) / 365 == 18;
    assert (5 * (213 + dd) + 2) / 153 == 7;
    assert (153 * 7 + 2) / 5 == 214;
  }

  lemma Date20181003()
    ensures DateText(17807) == "2018-10-03"
  {
    October2018(3);
    Year2018();
    assert ZeroPadded(10, 2) == "10" by { assert Digits(10) == "10"; }
    Padded(3);
  }

  lemma Date20181004()
    ensures DateText(17808) == "2018-10-04"
  {
    October2018(4);
    Year2018();
    assert ZeroPadded(10, 2) == "10" by { assert Digits(10) == "10"; }
    Padded(4);
  }

  lemma Year2018()
    ensures YearText(2018) == "2018"
  {
    assert Digits(2018) == "2018" by {
      assert Digits(2) == "2";
      assert Digits(20) == "20";
      assert Digits(201) == "201";
    }
  }

  /**
   * 2018-07-16T07:00:42Z, a Monday: the schedule sends no digest then, since
   * the weekly digest is due at 12:00 UTC. The repository's test of this
   * instant expects a weekly digest.
   */
  lemma FixtureMondayMorning()
    ensures !SendWeek(17728 * Day + 7 * Hour + 42 * Second)
    ensures !SendDay(17728 * Day + 7 * Hour + 42 * Second)
    ensures SendWeek(17728 * Day + 12 * Hour + 42 * Second)
  {
    OnDay(17728, 7 * Hour + 42 * Second);
    OnDay(17728, 12 * Hour + 42 * Second);
  }

  lemma OnDay(day: int, tod: int)
    requires 0 <= tod < Day
    ensures DayOf(day * Day + tod) == day && Weekday(day * Day + tod) == (day + 3) % 7
    ensures HourOf(day * Day + tod) == tod / Hour && MinuteOf(day * Day + tod) == tod % Hour / Minute
  {
    DayParts(day, tod);
  }
}
