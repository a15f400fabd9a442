/**
 * Instants, calendar values and the clock arithmetic of main.py.
 *
 * An instant is an aware `datetime`, held as whole microseconds since
 * 1970-01-01T00:00:00Z; a calendar date is a day number counted from that
 * same date. Python's `datetime` cannot leave the years 1..9999; the model
 * does not bound its integers.
 */
module Clock {
  import opened Results

  type Instant = int

  const Second: int := 1_000_000
  const Minute: int := 60 * Second
  const Hour: int := 60 * Minute
  const Day: int := 24 * Hour
  const Week: int := 7 * Day

  /** A `date` (an all-day value) or an aware `datetime`. */
  datatype TimeValue = DateOnly(day: int) | DateTime(at: Instant)

  /**
   * `t.date()`: the calendar day that contains `t`, in the zone `t` is written
   * in (UTC, or a display zone once shifted by Local).
   */
  function DayOf(t: Instant): int
  {
    t / Day
  }

  /** Microseconds elapsed since midnight of `t`'s day. */
  function TimeOfDay(t: Instant): (r: int)
    ensures 0 <= r < Day
  {
    t % Day
  }

  /** Python's `t.weekday()`: Monday is 0; 1970-01-01 was a Thursday (3). */
  function Weekday(t: Instant): (r: int)
    ensures 0 <= r < 7
  {
    (DayOf(t) + 3) % 7
  }

  function HourOf(t: Instant): (r: int)
    ensures 0 <= r < 24
  {
    TimeOfDay(t) / Hour
  }

  function MinuteOf(t: Instant): (r: int)
    ensures 0 <= r < 60
  {
    TimeOfDay(t) % Hour / Minute
  }

  function SecondOf(t: Instant): (r: int)
    ensures 0 <= r < 60
  {
    TimeOfDay(t) % Minute / Second
  }

  function MicrosecondOf(t: Instant): (r: int)
    ensures 0 <= r < Second
  {
    t % Second
  }

  /**
   * `to_datetime`: a missing value is the epoch, a date-time is kept as it
   * is, and a date becomes midnight UTC at the start of that date.
   */
  function ToInstant(d: Option<TimeValue>): (t: Instant)
    ensures d.None? ==> t == 0
    ensures d.Some? && d.value.DateTime? ==> t == d.value.at
    ensures d.Some? && d.value.DateOnly? ==> DayOf(t) == d.value.day && TimeOfDay(t) == 0
  {
    match d
    case None => 0
    case Some(DateTime(at)) => at
    case Some(DateOnly(day)) => day * Day
  }

  /** A display time zone: the UTC offset, in seconds, in force at each instant. */
  type Zone = Instant -> int

  /** `t.astimezone(zone)`: the wall-clock time of `t` in `zone`, as an instant-like count. */
  function Local(t: Instant, zone: Zone): Instant
  {
    t + zone(t) * Second
  }

  /**
   * A date made an instant opens that date's UTC day: an instant lies in
   * the following day-long span exactly when it falls on that date.
   */
  lemma DateInstantOpensDay(d: int, t: Instant)
    ensures var midnight := ToInstant(Some(DateOnly(d)));
      midnight <= t < midnight + Day <==> DayOf(t) == d
  {
  }

  /**
   * `now.replace(hour=23, minute=59, second=59)` for a UTC `now`: the same
   * day and the same microsecond, at 23:59:59.
   */
  function EndOfDay(now: Instant): (r: Instant)
    ensures DayOf(r) == DayOf(now)
    ensures HourOf(r) == 23 && MinuteOf(r) == 59 && SecondOf(r) == 59
    ensures TimeOfDay(r) == 23 * Hour + 59 * Minute + 59 * Second + MicrosecondOf(now)
    ensures MicrosecondOf(r) == MicrosecondOf(now)
    ensures now - TimeOfDay(now) <= r < now - TimeOfDay(now) + Day
  {
    var r := DayOf(now) * Day + 23 * Hour + 59 * Minute + 59 * Second + MicrosecondOf(now);
    DayParts(DayOf(now), 23 * Hour + 59 * Minute + 59 * Second + MicrosecondOf(now));
    assert MicrosecondOf(r) == MicrosecondOf(now) by {
      assert r == Second * (DayOf(now) * 86400 + 86399) + MicrosecondOf(now);
    }
    r
  }

  /** An instant is its day's midnight plus its time of day. */
  lemma DaySplit(t: Instant)
    ensures t == DayOf(t) * Day + TimeOfDay(t)
  {
  }

  /** An instant written as a day number and a time of day splits back into them. */
  lemma DayParts(day: int, tod: int)
    requires 0 <= tod < Day
    ensures DayOf(day * Day + tod) == day && TimeOfDay(day * Day + tod) == tod
  {
  }
}
