/**
 * The two digest windows of main.py: `events_of_week` and `events_of_day`.
 * Both keep, in feed order, the events whose start (made an instant by
 * `to_datetime`) lies in a half-open window that opens at `now`.
 */
module Windows {
  import opened Results
  import opened Clock
  import opened Description

  /** `to_datetime(e.start)`. */
  function StartOf(e: Event): Instant
  {
    ToInstant(Some(e.start))
  }

  /** `a` is `b` with some elements left out, the rest in the same order. */
  predicate SubsequenceOf<T(==)>(a: seq<T>, b: seq<T>)
    decreases |b|
  {
    if b == [] then a == []
    else (a != [] && a[0] == b[0] && SubsequenceOf(a[1..], b[1..])) || SubsequenceOf(a, b[1..])
  }

  /**
   * `[e for e in events if lo <= to_datetime(e.start) < hi]`: every event
   * starting in `[lo, hi)`, each as often as in `events`, in feed order, and
   * no other event.
   */
  function StartingIn(events: seq<Event>, lo: Instant, hi: Instant): (r: seq<Event>)
    ensures SubsequenceOf(r, events)
    ensures forall e :: multiset(r)[e] == if lo <= StartOf(e) < hi then multiset(events)[e] else 0
  {
    if events == [] then []
    else
      var rest := StartingIn(events[1..], lo, hi);
      assert events == [events[0]] + events[1..];
      if lo <= StartOf(events[0]) < hi then
        assert ([events[0]] + rest)[1..] == rest;
        [events[0]] + rest
      else rest
  }

  /** An event is kept exactly when it is in the input and starts in the window. */
  lemma StartingInMembers(events: seq<Event>, lo: Instant, hi: Instant, e: Event)
    ensures e in StartingIn(events, lo, hi) <==> e in events && lo <= StartOf(e) < hi
  {
    assert e in events <==> e in multiset(events);
  }

  /** `events_of_week`: the window `[now, now + 7 days)`. */
  function EventsOfWeek(events: seq<Event>, now: Instant): (r: seq<Event>)
    ensures SubsequenceOf(r, events)
    ensures forall e :: e in r <==> e in events && now <= StartOf(e) < now + Week
  {
    var r := StartingIn(events, now, now + Week);
    assert forall e :: e in r <==> e in events && now <= StartOf(e) < now + Week by {
      forall e ensures e in r <==> e in events && now <= StartOf(e) < now + Week {
        StartingInMembers(events, now, now + Week, e);
      }
    }
    r
  }

  /**
   * `events_of_day`: the window from `now` to 23:59:59 of now's UTC day,
   * that is, the events starting from `now` on, on the same UTC day, before
   * 23:59:59 and the microsecond of `now`.
   */
  function EventsOfDay(events: seq<Event>, now: Instant): (r: seq<Event>)
    ensures SubsequenceOf(r, events)
    ensures forall e :: e in r <==> && e in events && now <= StartOf(e) && DayOf(StartOf(e)) == DayOf(now)
                                    && TimeOfDay(StartOf(e)) < TimeOfDay(EndOfDay(now))
  {
    var r := StartingIn(events, now, EndOfDay(now));
    assert forall e :: e in r <==> && e in events && now <= StartOf(e) && DayOf(StartOf(e)) == DayOf(now)
                                   && TimeOfDay(StartOf(e)) < TimeOfDay(EndOfDay(now)) by {
      forall e {
        DayWindowMembers(events, now, e);
      }
    }
    r
  }

  lemma DayWindowMembers(events: seq<Event>, now: Instant, e: Event)
    ensures e in StartingIn(events, now, EndOfDay(now))
      <==> && e in events && now <= StartOf(e) && DayOf(StartOf(e)) == DayOf(now)
           && TimeOfDay(StartOf(e)) < TimeOfDay(EndOfDay(now))
  {
    var end := EndOfDay(now);
    StartingInMembers(events, now, end, e);
    WithinDay(now, end, StartOf(e));
  }

  /** Between `now` and a later instant of the same UTC day lie the instants of that day up to it. */
  lemma WithinDay(now: Instant, end: Instant, t: Instant)
    requires DayOf(end) == DayOf(now) && now <= end
    ensures now <= t < end <==> now <= t && DayOf(t) == DayOf(now) && TimeOfDay(t) < TimeOfDay(end)
  {
    DaySplit(now);
    DaySplit(end);
    DaySplit(t);
    if now <= t < end {
      DayParts(DayOf(now), t - DayOf(now) * Day);
    }
  }

  /**
   * The weekly window is half-open: an event starting exactly at `now` is in
   * it and one starting exactly seven days later is not.
   */
  lemma WeekBoundaries(events: seq<Event>, now: Instant, e: Event)
    requires e in events
    ensures StartOf(e) == now ==> e in EventsOfWeek(events, now)
    ensures StartOf(e) == now + Week ==> e !in EventsOfWeek(events, now)
  {
    assert e in multiset(events);
  }

  /**
   * The daily window holds only events starting from `now` to before
   * 23:59:59 of now's UTC day, so it misses an event in the day's last
   * second; an event starting at `now` is in it unless `now` is itself in
   * that last second.
   */
  lemma DayBoundaries(events: seq<Event>, now: Instant, e: Event)
    requires e in events
    ensures e in EventsOfDay(events, now) ==> now <= StartOf(e) && DayOf(StartOf(e)) == DayOf(now)
    ensures StartOf(e) == now && TimeOfDay(now) < 23 * Hour + 59 * Minute + 59 * Second
      ==> e in EventsOfDay(events, now)
    ensures StartOf(e) == now - TimeOfDay(now) + Day - 1 ==> e !in EventsOfDay(events, now)
  {
    StartingInMembers(events, now, EndOfDay(now), e);
    var midnight, end := DayOf(now) * Day, EndOfDay(now);
    DaySplit(now);
    DaySplit(end);
    if now <= StartOf(e) < end {
      DayParts(DayOf(now), StartOf(e) - midnight);
    }
  }

  /** Narrowing the window keeps a subsequence of what the wider window keeps. */
  lemma {:induction false} NarrowerWindow(events: seq<Event>, lo: Instant, hi: Instant, lo': Instant, hi': Instant)
    requires lo' <= lo && hi <= hi'
    ensures SubsequenceOf(StartingIn(events, lo, hi), StartingIn(events, lo', hi'))
  {
    if events != [] {
      NarrowerWindow(events[1..], lo, hi, lo', hi');
      var inner, outer := StartingIn(events[1..], lo, hi), StartingIn(events[1..], lo', hi');
      if lo <= StartOf(events[0]) < hi {
        assert ([events[0]] + inner)[1..] == inner;
        assert ([events[0]] + outer)[1..] == outer;
      } else if lo' <= StartOf(events[0]) < hi' {
        assert ([events[0]] + outer)[1..] == outer;
      }
    }
  }

  /** What the daily digest lists, the weekly digest at the same instant lists too, in the same order. */
  lemma DayWithinWeek(events: seq<Event>, now: Instant)
    ensures SubsequenceOf(EventsOfDay(events, now), EventsOfWeek(events, now))
  {
    NarrowerWindow(events, now, EndOfDay(now), now, now + Week);
  }

  /**
   * Weekly digests a week apart neither repeat nor skip an event: together
   * they list exactly the events starting in the two weeks after `now`.
   */
  lemma ConsecutiveWeeks(events: seq<Event>, now: Instant)
    ensures multiset(EventsOfWeek(events, now)) + multiset(EventsOfWeek(events, now + Week))
      == multiset(StartingIn(events, now, now + 2 * Week))
  {
    var both := multiset(EventsOfWeek(events, now)) + multiset(EventsOfWeek(events, now + Week));
    forall e ensures both[e] == multiset(StartingIn(events, now, now + 2 * Week))[e] {
    }
  }
}
