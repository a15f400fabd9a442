/**
 * `get_message` and `get_messages`: the weekly and daily digest policy of
 * main.py and the bulleted text of a digest message.
 */
module Digest {
  import opened Results
  import opened Clock
  import opened Description
  import opened Windows

  /** When the digests go out, in UTC, and how often the poll runs. */
  const UpdateWeekAtHour: int := 12
  const UpdateDayAtHour: int := 8
  const UpdateIntervalMinutes: int := 2

  const WeekHeader: string := "Events this week:"
  const NoEventsHeader: string := "No events this week \U{1F622}"
  const DayHeader: string := "Events today:"

  /** The bullet that starts each listed event, and what separates two of them. */
  const BulletChar: char := '\U{2022}'
  const Bullet: string := [BulletChar, ' ']
  const BulletSeparator: string := "\n" + Bullet

  /** The webhook payload `{"text": ...}`. */
  datatype Message = Message(text: string)

  /** Python's `sep.join(parts)`. */
  function Join(sep: string, parts: seq<string>): string
  {
    if parts == [] then ""
    else if |parts| == 1 then parts[0]
    else parts[0] + sep + Join(sep, parts[1..])
  }

  /**
   * `[event_description(e) for e in events]`: the descriptions in order, or
   * the exception of the first event that cannot be described.
   */
  function DescribeAll(events: seq<Event>, zone: Zone): (r: Result<seq<string>>)
    ensures r.Ok? <==> forall e :: e in events ==> Describable(e)
    ensures r.Err? ==> r.error == NoAstimezone
    ensures r.Ok? ==>
      |r.value| == |events| && forall i :: 0 <= i < |events| ==> DescribeAsWritten(events[i], zone) == Ok(r.value[i])
  {
    if events == [] then Ok([])
    else
      assert forall e :: e in events <==> e == events[0] || e in events[1..];
      match DescribeAsWritten(events[0], zone)
      case Err(error) => Err(error)
      case Ok(first) =>
        match DescribeAll(events[1..], zone)
        case Err(error) => Err(error)
        case Ok(rest) => Ok([first] + rest)
  }

  /** The text of `get_message`: the header, a newline, and one bullet per description. */
  function MessageText(header: string, descriptions: seq<string>): string
  {
    header + "\n" + Bullet + Join(BulletSeparator, descriptions)
  }

  /** `get_message(msg, events)`. */
  function GetMessage(header: string, events: seq<Event>, zone: Zone): (r: Result<Message>)
    ensures r.Ok? <==> forall e :: e in events ==> Describable(e)
    ensures events == [] ==> r == Ok(Message(header + "\n" + Bullet))
  {
    assert MessageText(header, []) == header + "\n" + Bullet + "" == header + "\n" + Bullet;
    assert events == [] ==> DescribeAll(events, zone) == Ok([]);
    match DescribeAll(events, zone)
    case Err(error) => Err(error)
    case Ok(descriptions) => Ok(Message(MessageText(header, descriptions)))
  }

  /** Each description on a line of its own, after a bullet. */
  function BulletLines(descriptions: seq<string>): string
  {
    if descriptions == [] then ""
    else BulletSeparator + descriptions[0] + BulletLines(descriptions[1..])
  }

  /**
   * A message is its header followed by one bulleted line per description;
   * with no descriptions a lone bullet still follows the header.
   */
  lemma {:induction false} MessageTextLines(header: string, descriptions: seq<string>)
    ensures MessageText(header, descriptions)
      == header + (if descriptions == [] then BulletSeparator else BulletLines(descriptions))
  {
    if descriptions != [] {
      JoinedLines(descriptions);
      assert header + "\n" + Bullet + Join(BulletSeparator, descriptions)
        == header + ("\n" + Bullet + Join(BulletSeparator, descriptions));
    }
  }

  lemma {:induction false} JoinedLines(descriptions: seq<string>)
    requires descriptions != []
    ensures "\n" + Bullet + Join(BulletSeparator, descriptions) == BulletLines(descriptions)
  {
    var first := descriptions[0];
    if |descriptions| == 1 {
      assert BulletLines(descriptions[1..]) == "";
    } else {
      var rest := descriptions[1..];
      JoinedLines(rest);
      calc {
        "\n" + Bullet + Join(BulletSeparator, descriptions);
        BulletSeparator + (first + BulletSeparator + Join(BulletSeparator, rest));
        BulletSeparator + first + ("\n" + Bullet + Join(BulletSeparator, rest));
        BulletSeparator + first + BulletLines(rest);
      }
    }
  }

  /** Bullets in a joined text: one per separator, plus those inside the parts. */
  lemma {:induction false} JoinBulletCount(parts: seq<string>)
    requires parts != []
    requires forall p :: p in parts ==> BulletChar !in p
    ensures multiset(Join(BulletSeparator, parts))[BulletChar] == |parts| - 1
  {
    if |parts| > 1 {
      JoinBulletCount(parts[1..]);
      assert multiset(BulletSeparator)[BulletChar] == 1;
      assert parts[0] in parts && multiset(parts[0])[BulletChar] == 0;
    } else {
      assert parts[0] in parts && multiset(parts[0])[BulletChar] == 0;
    }
  }

  /**
   * When neither the header nor any description holds a bullet, a message
   * holds exactly one bullet per description, and one for no description.
   */
  lemma MessageBulletCount(header: string, descriptions: seq<string>)
    requires BulletChar !in header
    requires forall d :: d in descriptions ==> BulletChar !in d
    ensures multiset(MessageText(header, descriptions))[BulletChar]
      == if descriptions == [] then 1 else |descriptions|
  {
    assert multiset(header)[BulletChar] == 0;
    assert multiset("\n" + Bullet)[BulletChar] == 1;
    if descriptions != [] {
      JoinBulletCount(descriptions);
    }
  }

  /** In either layout, a description holds a bullet only when its summary or location does. */
  lemma DescriptionHasNoBullet(e: Event, zone: Zone)
    requires Describable(e)
    requires BulletChar !in e.summary && (e.location.Some? ==> BulletChar !in e.location.value)
    ensures DescribeAsWritten(e, zone).Ok? && BulletChar !in DescribeAsWritten(e, zone).value
    ensures Describe(e, zone).Ok? && BulletChar !in Describe(e, zone).value
  {
    var written, fields := LayoutAsWritten(e, zone).value, Layout(e, zone).value;
    RenderShowsOnly(written, BulletChar);
    RenderShowsOnly(fields, BulletChar);
    if BulletChar in Render(written) {
      var f :| f in written && FieldMayShow(f, BulletChar);
      LayoutMayShow(e, zone, f, BulletChar);
    }
    if BulletChar in Render(fields) {
      var f :| f in fields && FieldMayShow(f, BulletChar);
      LayoutMayShow(e, zone, f, BulletChar);
    }
  }

  /** `get_message` lists each event on a bulleted line of its own. */
  lemma GetMessageBullets(header: string, events: seq<Event>, zone: Zone)
    requires BulletChar !in header
    requires forall e :: e in events ==>
      Describable(e) && BulletChar !in e.summary && (e.location.Some? ==> BulletChar !in e.location.value)
    ensures GetMessage(header, events, zone).Ok?
    ensures multiset(GetMessage(header, events, zone).value.text)[BulletChar]
      == if events == [] then 1 else |events|
  {
    var descriptions := DescribeAll(events, zone).value;
    forall d | d in descriptions ensures BulletChar !in d {
      var i :| 0 <= i < |descriptions| && descriptions[i] == d;
      DescriptionHasNoBullet(events[i], zone);
    }
    MessageBulletCount(header, descriptions);
  }

  /** `send_week`: Monday, in the first poll interval after 12:00 UTC. */
  predicate SendWeek(now: Instant)
  {
    Weekday(now) == 0 && HourOf(now) == UpdateWeekAtHour && MinuteOf(now) < UpdateIntervalMinutes
  }

  /** `send_day`: Tuesday to Sunday, in the first poll interval after 08:00 UTC. */
  predicate SendDay(now: Instant)
  {
    Weekday(now) > 0 && HourOf(now) == UpdateDayAtHour && MinuteOf(now) < UpdateIntervalMinutes
  }

  /** The first Monday after the epoch: 1970-01-05T00:00Z. */
  const FirstMonday: Instant := 4 * Day

  /** Microseconds since the start of the Monday (UTC) of `t`'s week. */
  function SinceMonday(t: Instant): (r: int)
    ensures 0 <= r < Week
  {
    (t - FirstMonday) % Week
  }

  /** Time since Monday is the weekday's whole days plus the time of day. */
  lemma SinceMondaySplit(t: Instant)
    ensures SinceMonday(t) == Weekday(t) * Day + TimeOfDay(t)
  {
    var day, tod, wd := DayOf(t), TimeOfDay(t), Weekday(t);
    var k := (day + 3) / 7;
    assert day + 3 == k * 7 + wd;
    assert t - FirstMonday == (day - 4) * Day + tod;
    assert (day - 4) * Day == (k - 1) * Week + wd * Day;
    WeekRemainder(t - FirstMonday, k - 1, wd * Day + tod);
  }

  lemma WeekRemainder(x: int, q: int, r: int)
    requires 0 <= r < Week && x == q * Week + r
    ensures x % Week == r
  {
  }

  /** The weekly digest is due in exactly one two-minute slot a week: Monday 12:00:00 to 12:02:00 UTC. */
  lemma WeekSlot(now: Instant)
    ensures SendWeek(now) <==>
      UpdateWeekAtHour * Hour <= SinceMonday(now) < UpdateWeekAtHour * Hour + UpdateIntervalMinutes * Minute
  {
    SinceMondaySplit(now);
  }

  /** The daily digest is due from 08:00:00 to 08:02:00 UTC on every day but Monday. */
  lemma DaySlot(now: Instant)
    ensures SendDay(now) <==>
      && Day <= SinceMonday(now)
      && UpdateDayAtHour * Hour <= TimeOfDay(now) < UpdateDayAtHour * Hour + UpdateIntervalMinutes * Minute
  {
    SinceMondaySplit(now);
  }

  /** The weekly and daily schedules never fire together. */
  lemma DigestsExclusive(now: Instant)
    ensures !(SendWeek(now) && SendDay(now))
  {
  }

  function Singleton(m: Result<Message>): Result<seq<Message>>
  {
    match m
    case Err(error) => Err(error)
    case Ok(message) => Ok([message])
  }

  /**
   * `get_messages`: the weekly digest when forced or due, else the daily
   * digest when forced or due and not empty, else nothing. The weekly digest
   * is sent even when empty, as the "no events" message.
   */
  method GetMessages(events: seq<Event>, now: Instant, zone: Zone, forceWeek: bool, forceDay: bool)
    returns (r: Result<seq<Message>>)
    ensures r.Ok? ==> |r.value| <= 1
    ensures r.Ok? <== forall e :: e in events ==> Describable(e)
    ensures r.Err? ==> r.error == NoAstimezone
    ensures !(forceWeek || SendWeek(now)) && !(forceDay || SendDay(now)) ==> r == Ok([])
    ensures forceWeek || SendWeek(now) ==>
      var week := EventsOfWeek(events, now);
      r == if week == [] then Ok([Message(NoEventsHeader + "\n" + Bullet)])
           else Singleton(GetMessage(WeekHeader, week, zone))
    ensures !(forceWeek || SendWeek(now)) && (forceDay || SendDay(now)) ==>
      var day := EventsOfDay(events, now);
      r == if day == [] then Ok([]) else Singleton(GetMessage(DayHeader, day, zone))
  {
    var messages: seq<Message> := [];
    var sendWeek := SendWeek(now);
    var sendDay := SendDay(now);
    if forceWeek || sendWeek {
      var week := EventsOfWeek(events, now);
      if |week| > 0 {
        var message := GetMessage(WeekHeader, week, zone);
        if message.Err? {
          KeptAreDescribable(events, week, now, now + Week);
          return Err(message.error);
        }
        messages := messages + [message.value];
        assert messages == [message.value];
      } else {
        var message := GetMessage(NoEventsHeader, [], zone);
        messages := messages + [message.value];
        assert messages == [Message(NoEventsHeader + "\n" + Bullet)];
      }
    } else if forceDay || sendDay {
      var day := EventsOfDay(events, now);
      if |day| > 0 {
        var message := GetMessage(DayHeader, day, zone);
        if message.Err? {
          KeptAreDescribable(events, day, now, EndOfDay(now));
          return Err(message.error);
        }
        messages := messages + [message.value];
        assert messages == [message.value];
      }
    }
    return Ok(messages);
  }

  /** A window keeps only events of the input, so it keeps only describable ones when all are. */
  lemma KeptAreDescribable(events: seq<Event>, kept: seq<Event>, lo: Instant, hi: Instant)
    requires kept == StartingIn(events, lo, hi)
    ensures (forall e :: e in events ==> Describable(e)) ==> forall e :: e in kept ==> Describable(e)
  {
    forall e | e in kept ensures e in events {
      StartingInMembers(events, lo, hi, e);
    }
  }
}
