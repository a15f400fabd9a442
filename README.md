# Calendar digest notifier: a Dafny model of its core

The notifier reads the events of some iCalendar feeds and posts digests to a
chat webhook. A poll runs every two minutes. On Monday at 12:00 UTC the poll
posts the events of the coming week. On the other days at 08:00 UTC it posts
the events of the rest of the day. This project models the part of `main.py`
that decides what to post and writes the text:

- `to_datetime` turns an event's start into an instant: a missing start is
  the epoch, a date is midnight UTC (`clock.dfy`, module `Clock`).
- `events_of_week` and `events_of_day` are half-open windows that open at
  `now` (`windows.dfy`, module `Windows`).
- `date_as_string`, `datetime_as_string` and `time_as_string` print
  `%Y-%m-%d`, `%Y-%m-%d %H:%M` and `%H:%M` (`formatting.dfy`, module
  `Formatting`). A day number becomes a Gregorian date by the era
  algorithm, and a proof shows that the conversion can be undone.
- `event_description` prints one event (`description.dfy`, module
  `Description`). First it lays out a list of fields: literal text, a date,
  a date and time, or a time. Then the fields are rendered. Lemmas about
  which dates and times a layout shows state the rules of the function.
- `get_message` and `get_messages` build the bulleted message and apply
  the schedule (`digest.dfy`, module `Digest`).
- Concrete cases from the repository's test calendar are in
  `scenarios.dfy`, module `Scenarios`. `results.dfy` holds `Option` and
  `Result`.

Modelling choices:

- An instant is an `int` count of microseconds since 1970-01-01T00:00Z.
  Python's `datetime` also counts microseconds, and
  `now.replace(hour=23, minute=59, second=59)` keeps them.
- The display zone (Europe/Vilnius in `main.py`) is a parameter
  `zone: Instant -> int`. It gives the UTC offset, in seconds, at each
  instant. `astimezone` adds that offset.
- An event's start and end are either a `DateOnly` day number or a
  `DateTime` instant. `event_description` calls `astimezone` on both, and a
  Python `date` has no such method. So a date-valued start or end raises
  `AttributeError`. The model returns that as `Err`, and
  `get_message` and `get_messages` pass it on to their callers.
- `get_messages` is a `method`, as the source builds its `messages` list
  step by step. The other operations are functions, and lemmas prove their
  properties.

Where the repository's tests and `main.py` disagree, the model follows
`main.py`:

- The tests look for dates written `22.07.2018` and for `<no location>`.
  `main.py` prints `2018-07-22`, and nothing when there is no location.
- The tests expect a weekly digest at Monday 07:00:42 UTC. `main.py` sends
  it at 12:00 (`Scenarios.FixtureMondayMorning`).
- The tests import `events_in_near_future`, `new_events` and
  `modified_events`, which `main.py` does not define. They are not part of
  this model.

## Model

| member | source | states |
|---|---|---|
| Clock.ToInstant | main.py:70-75 | a missing value is the epoch; a date-time is kept; a date becomes the instant at 00:00 UTC of that same date |
| Clock.DateInstantOpensDay | main.py:74-75 | a date made an instant is the midnight UTC that opens it: an instant lies in the day that follows exactly when it falls on that date |
| Clock.EndOfDay | main.py:79 | `replace(hour=23, minute=59, second=59)`: same UTC day, at 23:59:59, with the microsecond of `now`; so it lies between that day's midnight and the next |
| Windows.EventsOfWeek | main.py:82-85 | the week digest's events are a subsequence of the input, and an event is among them exactly when it is in the input and starts in `[now, now + 7 days)`; see also StartingIn, WeekBoundaries and ConsecutiveWeeks |
| Windows.EventsOfDay | main.py:77-80 | the day digest's events are a subsequence of the input, and an event is among them exactly when it is in the input, starts at or after `now` on `now`'s UTC day, and starts before 23:59:59 plus `now`'s microsecond; see also DayBoundaries and DayWithinWeek |
| Windows.StartingIn | main.py:77-85 | the kept events are a subsequence of the input in feed order; each event is kept as often as it occurs in the input when its start is in `[lo, hi)`, and never otherwise |
| Windows.StartingInMembers | main.py:80 | an event is in a window exactly when it is in the input and starts inside the window |
| Windows.WeekBoundaries | main.py:82-85 | the week window includes an event starting exactly at `now` and excludes one starting exactly seven days later |
| Windows.DayBoundaries | main.py:77-80 | the day window keeps only events starting from `now` on `now`'s UTC day; it includes an event starting at `now` unless `now` is already at 23:59:59 or later; it never includes an event starting at 23:59:59.999999 of that day |
| Windows.NarrowerWindow | main.py:77-85 | a narrower window keeps a subsequence of what a wider window keeps |
| Windows.DayWithinWeek | main.py:77-85 | at the same instant, the day digest's events are a subsequence of the week digest's |
| Windows.ConsecutiveWeeks | main.py:82-85 | the week windows at `now` and at `now` plus seven days together hold exactly the events of the two weeks, with no event missing or repeated |
| Formatting.CivilFromDays | main.py:28-29 | the month printed by `%m` is 1..12 and the day printed by `%d` is 1..31 |
| Formatting.CivilRoundTrip | main.py:28-29 | the printed date can be converted back to the day number it came from |
| Formatting.CivilInjective | main.py:28-29 | two different days never print the same date |
| Formatting.Digits | main.py:28-37 | decimal digits: never empty, only digits, one digit exactly below 10, two digits from 10 to 99 |
| Formatting.ZeroPadded | main.py:28-37 | zero-padding gives at least the width and only digits |
| Formatting.DateText | main.py:28-29 | `%Y-%m-%d` is at least 10 characters of digits and '-', with '-' three and six characters from the end, and ends in a digit |
| Formatting.TimeText | main.py:36-37 | `%H:%M` is five characters: two digits, ':', two digits |
| Formatting.DateTimeText | main.py:32-33 | `%Y-%m-%d %H:%M`: the date text, a space and the time text; DateTextValue and TimeTextValue state its two parts, and Scenarios.Test3StartText and Test3EndDateTime state it on concrete instants |
| Formatting.DigitsValue | main.py:28-37 | the decimal digits of a number spell that number |
| Formatting.DigitsWidth | main.py:28-37 | a number below 10^k, for k at least 1, has at most k digits |
| Formatting.LeadingZeros | main.py:28-37 | zeros in front of a digit string leave the number it spells unchanged |
| Formatting.ZeroPaddedValue | main.py:28-37 | a zero-padded number spells that number, and has exactly the width when the number is below 10^width |
| Formatting.TimeTextValue | main.py:36-37 | the two fields of `%H:%M` spell the hour and the minute of the local time |
| Formatting.TimeTextInjective | main.py:36-37 | two local times print the same `%H:%M` exactly when their hours and minutes agree |
| Formatting.DateTextValue | main.py:28-29 | for years 0 to 9999, `%Y-%m-%d` is ten characters whose three fields spell the year, month and day of the Gregorian date |
| Formatting.DateTextInjective | main.py:28-29 | for years 0 to 9999, two days print the same `%Y-%m-%d` exactly when they are the same day |
| Description.LayoutAsWritten | main.py:40-67 | the description fails exactly when the start or the end is a date, which has no `astimezone`; the error is the `AttributeError` message |
| Description.Layout | main.py:40-67 | corrected, the same as LayoutAsWritten |
| Description.DescribeAsWritten | main.py:40-67 | the text of the description as main.py writes it fails exactly when the start or the end is a date, with the `AttributeError` message; its text is stated by DescriptionStartsWithSummary, DescriptionEndsWithLocation, DescriptionWithoutLocationEndsWithDigit, TimedAsWrittenShowsStartDateOnly and DescriptionHasNoBullet |
| Description.Describe | main.py:40-67 | corrected, the same as DescribeAsWritten; TimedShowsBothEnds states what the correction shows |
| Description.AllDayShowsLastDay | main.py:52-59 | an all-day event shows its first day and the day before its exclusive end, only the first when they coincide, never the stored end day when the end is after the start (a stored end on the start day is shown), and no time of day |
| Description.AllDayShowsNoTimeOfDay | main.py:52-59 | an all-day description, as written and corrected, contains ':' only if its summary or location does |
| Description.TimedAsWrittenShowsStartDateOnly | main.py:60-67 | as written, a timed description shows the start's date only, and the start's and end's times; an end on a later day has no date shown |
| Description.TimedShowsBothEnds | main.py:60-67 | corrected, a timed description shows the start's date and, when the end falls on a later local day, the end's date too; both times are always shown |
| Description.CorrectionOnlyAffectsCrossDay | main.py:61-67 | the corrected and as-written descriptions differ exactly for describable timed events whose local end day differs from the start day |
| Description.LayoutMayShow | main.py:40-67 | every character of the fields of either layout, as written or corrected, comes from the summary, the location, the fixed words, or a printed date or time; all-day fields print ':' only from the summary or the location |
| Description.RenderShowsOnly | main.py:56-67 | every character of a rendered description comes from one of its fields |
| Description.DescriptionStartsWithSummary | main.py:56-67 | every description, as written and corrected, begins with the summary between asterisks |
| Description.DescriptionEndsWithLocation | main.py:45-48 | with a location, the description, as written and corrected, ends with " at " and the location |
| Description.DescriptionWithoutLocationEndsWithDigit | main.py:45-46 | without a location nothing is appended, and the description, as written and corrected, ends with a digit of its last date or time |
| Digest.DescribeAll | main.py:89 | the descriptions succeed exactly when every event is describable; the i-th description is main.py's description of the i-th event; the error is the `AttributeError` message |
| Digest.Join | main.py:89 | `str.join`; JoinedLines and JoinBulletCount state its result |
| Digest.MessageText | main.py:89-90 | the text of `get_message`; MessageTextLines and MessageBulletCount state its lines and bullets |
| Digest.GetMessage | main.py:88-90 | the message succeeds exactly when every event is describable; with no events it is the header, a newline and a lone bullet |
| Digest.MessageTextLines | main.py:89-90 | a message is its header followed by one bulleted line per description, or by a lone bullet for none |
| Digest.JoinBulletCount | main.py:89 | joining bullet-free parts with the bullet separator gives one bullet fewer than the number of parts |
| Digest.MessageBulletCount | main.py:89-90 | a message has exactly one bullet per description, and one for no description, when no part holds a bullet |
| Digest.DescriptionHasNoBullet | main.py:40-67 | a description, as written and corrected, holds a bullet only when its summary or location does |
| Digest.GetMessageBullets | main.py:88-90 | a message about bullet-free events has exactly one bullet per event, and one for no event |
| Digest.SendWeek | main.py:96-98 | `send_week`; WeekSlot and DigestsExclusive state when it holds |
| Digest.SendDay | main.py:99-101 | `send_day`; DaySlot and DigestsExclusive state when it holds |
| Digest.WeekSlot | main.py:96-98 | `send_week` holds exactly in the two minutes after Monday 12:00:00 UTC |
| Digest.DaySlot | main.py:99-101 | `send_day` holds exactly in the two minutes after 08:00:00 UTC on any day but Monday |
| Digest.DigestsExclusive | main.py:96-101 | `send_week` and `send_day` never hold together |
| Digest.GetMessages | main.py:93-113 | at most one message. If the week digest is forced or due, it wins: the week's events, or the "No events this week" message for an empty week. Otherwise, if the day digest is forced or due, the day's events, and nothing for an empty day. Otherwise nothing. A description error is passed on; with every event describable there is none |
| Scenarios.Test3LayoutAsWritten | main.py:65-67 | as written, "test3" from 09:00 on 2018-10-03 to 08:00 on 2018-10-04 (UTC+3) lays out its end as a time only |
| Scenarios.Test3Layout | main.py:65-67 | corrected, the same event lays out its end as a date and time |
| Scenarios.Test3StartText | main.py:32-33 | the start prints as "2018-10-03 09:00" |
| Scenarios.Test3EndTime | main.py:36-37 | the end prints as "08:00" with `time_as_string` |
| Scenarios.Test3EndDateTime | main.py:32-33 | the end prints as "2018-10-04 08:00" with `datetime_as_string` |
| Scenarios.October2018 | main.py:28-29 | day numbers 17805 to 17835 are October 1 to 31, 2018 |
| Scenarios.CrossDayEndDateDropped | main.py:65-67 | as written, "test3" is described as "*test3* from 2018-10-03 09:00 to 08:00" |
| Scenarios.CrossDayEndDateShown | main.py:65-67 | corrected, it is described as "*test3* from 2018-10-03 09:00 to 2018-10-04 08:00" |
| Scenarios.FixtureMondayMorning | main.py:96-101 | Monday 2018-07-16 07:00:42 UTC is neither digest's time; 12:00:42 that day is the weekly digest's time |

## Left out

- `get_events`, with the iCalendar download, parsing and recurrence expansion of `icalevents`: events are an input sequence.
- `post_message`, `post_error_message`, `check_for_changes`, `error_handler`, `main`, `test` and the command line are network, logging, timer and process code. The `messages` that `check_for_changes` posts are what `GetMessages` returns.
- The pytz database for Europe/Vilnius: the zone is a parameter, with offsets in whole seconds.
- Python `datetime` allows only years 1 to 9999, and the model's instants are unbounded. For years below 1000 the model pads `%Y` to four digits. What `strftime` prints for such years depends on the platform's C library.
- Naive date-times: comparing one with the aware `now` raises `TypeError` in Python. The model treats every date-time as aware.
- Formatting.DateTimeText: it has no contract of its own. `datetime_as_string` is the date text, a space and the time text, and Scenarios.Test3StartText and Test3EndDateTime state it on concrete instants.
- The daily window ends at 23:59:59 plus `now`'s microsecond, not at midnight, and `Windows.DayBoundaries` states what that excludes. The scheduled daily digest runs at 08:00, where this leaves out only events in the day's last second. A forced daily digest (`test`, main.py:176) may run at any time, and from 23:59:59 on its window is empty. This is not listed as a finding, because nothing shows which end of day was intended.
- Formatting.CivilFromDays: states that the day is 1..31, not the length of each month; CivilRoundTrip and CivilInjective pin the date down instead.
- Formatting.Digits, Formatting.ZeroPadded, Formatting.DateText, Formatting.TimeText: their own contracts state the shape of the text; the values are stated by DigitsValue, ZeroPaddedValue, DateTextValue and TimeTextValue. DateTextValue holds for years 0 to 9999 only, which covers Python's range of 1 to 9999; the others hold for every input.

## Findings

| source | as written | input that shows it | evidently intended | confidence | as-written member | corrected member |
|---|---|---|---|---|---|---|
| main.py:65-67 | the branch for a timed event ending on a later local day prints the end with `time_as_string`, like the same-day branch above it | "test3", 2018-10-03 08:00 to 2018-10-04 07:00 Europe/Berlin, shown at UTC+3: "*test3* from 2018-10-03 09:00 to 08:00", which reads as ending before it starts | `datetime_as_string(end)`: "*test3* from 2018-10-03 09:00 to 2018-10-04 08:00" | high; not executed | Scenarios.CrossDayEndDateDropped | Scenarios.CrossDayEndDateShown |

The general forms are `Description.TimedAsWrittenShowsStartDateOnly` (as
written, the end's date is never shown) and `Description.TimedShowsBothEnds`
(corrected). `Description.CorrectionOnlyAffectsCrossDay` shows that the
correction changes nothing else. The digest messages (`Digest.DescribeAll`,
`Digest.GetMessage`, `Digest.GetMessages`) use the description as main.py
writes it (`Description.DescribeAsWritten`), so they carry the defect. The
corrected `Description.Describe` satisfies every property the digest relies
on as well.
