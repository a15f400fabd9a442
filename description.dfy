/**
 * `event_description`: one event as a one-line text. The text is first laid
 * out as a sequence of fields (literal text, a date, a date with a time, a
 * time) and then rendered with the `strftime` helpers, so that which dates
 * and times an event shows can be stated without parsing the text back.
 */
module Description {
  import opened Results
  import opened Clock
  import opened Formatting

  /**
   * One occurrence of a calendar event, as the feed delivers it after
   * expanding recurrences. For an all-day event `end` is exclusive: the
   * stored end is the day after the last day the event covers.
   */
  datatype Event = Event(
    start: TimeValue,
    end: TimeValue,
    summary: string,
    location: Option<string>,
    allDay: bool)

  /** A piece of a description: literal text or a date and/or time to render. */
  datatype Field =
    | Lit(text: string)
    | DateField(day: int)
    | DateTimeField(local: Instant)
    | TimeField(local: Instant)

  /** The exception `date.astimezone` raises: a `date` has no such method. */
  const NoAstimezone: string := "'datetime.date' object has no attribute 'astimezone'"

  /** `astimezone` succeeds only on date-time values. */
  predicate Describable(e: Event)
  {
    e.start.DateTime? && e.end.DateTime?
  }

  function FieldText(f: Field): string
  {
    match f
    case Lit(text) => text
    case DateField(day) => DateText(day)
    case DateTimeField(local) => DateTimeText(local)
    case TimeField(local) => TimeText(local)
  }

  function Render(fields: seq<Field>): string
  {
    if fields == [] then "" else FieldText(fields[0]) + Render(fields[1..])
  }

  /** The location suffix: " at <location>", or nothing when there is no location. */
  function LocationFields(location: Option<string>): seq<Field>
  {
    match location
    case None => []
    case Some(place) => [Lit(" at " + place)]
  }

  /**
   * An all-day event from local day `startDay` to the exclusive local day
   * `endDay`: the day before `endDay` is its last day, and a single day is
   * shown without "from ... to".
   */
  function AllDayFields(summary: string, startDay: int, endDay: int): seq<Field>
  {
    var lastDay := endDay - 1;
    if startDay == lastDay then [Lit("*" + summary + "* "), DateField(startDay)]
    else [Lit("*" + summary + "* from "), DateField(startDay), Lit(" to "), DateField(lastDay)]
  }

  /** The local time the description shows for the start (`event.start.astimezone(TZ)`). */
  function LocalStart(e: Event, zone: Zone): Instant
    requires Describable(e)
  {
    Local(e.start.at, zone)
  }

  /** The local time the description shows for the end (`event.end.astimezone(TZ)`). */
  function LocalEnd(e: Event, zone: Zone): Instant
    requires Describable(e)
  {
    Local(e.end.at, zone)
  }

  /** The fields of a description before its location suffix, as main.py writes them. */
  function FieldsAsWritten(e: Event, zone: Zone): seq<Field>
    requires Describable(e)
  {
    var start := LocalStart(e, zone);
    var end := LocalEnd(e, zone);
    if e.allDay then AllDayFields(e.summary, DayOf(start), DayOf(end))
    else [Lit("*" + e.summary + "* from "), DateTimeField(start), Lit(" to "), TimeField(end)]
  }

  /**
   * The fields of a description before its location suffix, with the
   * cross-day branch as evidently intended: a timed event that ends on a
   * later local day shows the end's date and time.
   */
  function Fields(e: Event, zone: Zone): seq<Field>
    requires Describable(e)
  {
    var start := LocalStart(e, zone);
    var end := LocalEnd(e, zone);
    var endField := if DayOf(start) == DayOf(end) then TimeField(end) else DateTimeField(end);
    if e.allDay then AllDayFields(e.summary, DayOf(start), DayOf(end))
    else [Lit("*" + e.summary + "* from "), DateTimeField(start), Lit(" to "), endField]
  }

  /**
   * `event_description` as main.py writes it: both timed branches format the
   * end with `time_as_string`, so an event ending on a later day loses its
   * end date.
   */
  function LayoutAsWritten(e: Event, zone: Zone): (r: Result<seq<Field>>)
    ensures r.Err? <==> !Describable(e)
    ensures r.Err? ==> r.error == NoAstimezone
  {
    if !Describable(e) then Err(NoAstimezone)
    else Ok(FieldsAsWritten(e, zone) + LocationFields(e.location))
  }

  /** `event_description`, corrected (see Fields). */
  function Layout(e: Event, zone: Zone): (r: Result<seq<Field>>)
    ensures r.Err? <==> !Describable(e)
    ensures r.Err? ==> r.error == NoAstimezone
  {
    if !Describable(e) then Err(NoAstimezone)
    else Ok(Fields(e, zone) + LocationFields(e.location))
  }

  /** The text of the corrected description. */
  function Describe(e: Event, zone: Zone): (r: Result<string>)
    ensures r.Err? <==> !Describable(e)
    ensures r.Err? ==> r.error == NoAstimezone
  {
    match Layout(e, zone)
    case Err(error) => Err(error)
    case Ok(fields) => Ok(Render(fields))
  }

  /** The text of `event_description` as main.py writes it; the digest posts this one. */
  function DescribeAsWritten(e: Event, zone: Zone): (r: Result<string>)
    ensures r.Err? <==> !Describable(e)
    ensures r.Err? ==> r.error == NoAstimezone
  {
    match LayoutAsWritten(e, zone)
    case Err(error) => Err(error)
    case Ok(fields) => Ok(Render(fields))
  }

  /** The local days whose dates one field shows. */
  function FieldDates(f: Field): seq<int>
  {
    match f
    case DateField(day) => [day]
    case DateTimeField(local) => [DayOf(local)]
    case _ => []
  }

  /** The local times of day one field shows. */
  function FieldTimes(f: Field): seq<int>
  {
    match f
    case DateTimeField(local) => [TimeOfDay(local)]
    case TimeField(local) => [TimeOfDay(local)]
    case _ => []
  }

  /** The local days whose dates a description shows, in order. */
  function DatesShown(fields: seq<Field>): seq<int>
  {
    if fields == [] then [] else FieldDates(fields[0]) + DatesShown(fields[1..])
  }

  /** The local times of day a description shows, in order. */
  function TimesShown(fields: seq<Field>): seq<int>
  {
    if fields == [] then [] else FieldTimes(fields[0]) + TimesShown(fields[1..])
  }

  lemma {:induction false} DatesShownConcat(a: seq<Field>, b: seq<Field>)
    ensures DatesShown(a + b) == DatesShown(a) + DatesShown(b)
  {
    if a == [] {
      assert a + b == b;
    } else {
      assert (a + b)[0] == a[0] && (a + b)[1..] == a[1..] + b;
      DatesShownConcat(a[1..], b);
    }
  }

  lemma {:induction false} TimesShownConcat(a: seq<Field>, b: seq<Field>)
    ensures TimesShown(a + b) == TimesShown(a) + TimesShown(b)
  {
    if a == [] {
      assert a + b == b;
    } else {
      assert (a + b)[0] == a[0] && (a + b)[1..] == a[1..] + b;
      TimesShownConcat(a[1..], b);
    }
  }

  lemma {:induction false} RenderConcat(a: seq<Field>, b: seq<Field>)
    ensures Render(a + b) == Render(a) + Render(b)
  {
    if a == [] {
      assert a + b == b;
    } else {
      assert (a + b)[0] == a[0] && (a + b)[1..] == a[1..] + b;
      RenderConcat(a[1..], b);
    }
  }

  lemma ShownOfTwo(fields: seq<Field>)
    requires |fields| == 2
    ensures DatesShown(fields) == FieldDates(fields[0]) + FieldDates(fields[1])
    ensures TimesShown(fields) == FieldTimes(fields[0]) + FieldTimes(fields[1])
  {
    var r1 := fields[1..];
    assert r1[0] == fields[1] && r1[1..] == [];
    assert DatesShown(r1) == FieldDates(fields[1]) by {
      assert FieldDates(fields[1]) + [] == FieldDates(fields[1]);
    }
    assert TimesShown(r1) == FieldTimes(fields[1]) by {
      assert FieldTimes(fields[1]) + [] == FieldTimes(fields[1]);
    }
  }

  lemma DatesOfFour(fields: seq<Field>)
    requires |fields| == 4
    ensures DatesShown(fields)
      == FieldDates(fields[0]) + (FieldDates(fields[1]) + (FieldDates(fields[2]) + FieldDates(fields[3])))
  {
    var r1 := fields[1..];
    var r2 := r1[1..];
    var r3 := r2[1..];
    assert r1[0] == fields[1] && r2[0] == fields[2] && r3[0] == fields[3];
    assert DatesShown(r3) == FieldDates(fields[3]) by {
      assert r3[1..] == [];
      assert FieldDates(fields[3]) + [] == FieldDates(fields[3]);
    }
    assert DatesShown(r2) == FieldDates(fields[2]) + DatesShown(r3);
    assert DatesShown(r1) == FieldDates(fields[1]) + DatesShown(r2);
  }

  lemma TimesOfFour(fields: seq<Field>)
    requires |fields| == 4
    ensures TimesShown(fields)
      == FieldTimes(fields[0]) + (FieldTimes(fields[1]) + (FieldTimes(fields[2]) + FieldTimes(fields[3])))
  {
    var r1 := fields[1..];
    var r2 := r1[1..];
    var r3 := r2[1..];
    assert r1[0] == fields[1] && r2[0] == fields[2] && r3[0] == fields[3];
    assert TimesShown(r3) == FieldTimes(fields[3]) by {
      assert r3[1..] == [];
      assert FieldTimes(fields[3]) + [] == FieldTimes(fields[3]);
    }
    assert TimesShown(r2) == FieldTimes(fields[2]) + TimesShown(r3);
    assert TimesShown(r1) == FieldTimes(fields[1]) + TimesShown(r2);
  }

  lemma RenderOfFour(fields: seq<Field>)
    requires |fields| == 4
    ensures Render(fields) == FieldText(fields[0]) + (FieldText(fields[1]) + (FieldText(fields[2]) + FieldText(fields[3])))
  {
    var r1 := fields[1..];
    var r2 := r1[1..];
    var r3 := r2[1..];
    assert r1[0] == fields[1] && r2[0] == fields[2] && r3[0] == fields[3];
    assert Render(r3) == FieldText(fields[3]) by {
      assert r3[1..] == [];
      assert FieldText(fields[3]) + "" == FieldText(fields[3]);
    }
    assert Render(r2) == FieldText(fields[2]) + Render(r3);
    assert Render(r1) == FieldText(fields[1]) + Render(r2);
  }

  lemma LocationShowsNothing(location: Option<string>)
    ensures DatesShown(LocationFields(location)) == [] && TimesShown(LocationFields(location)) == []
  {
  }

  /**
   * An all-day event shows its first day and its last day (the day before the
   * stored exclusive end), the first alone when the two coincide, and no time
   * of day. When the stored end lies after the start, the stored end date
   * itself is not shown; a stored end on the start day is shown, as the
   * "to" date of a range that runs backwards.
   */
  lemma AllDayShowsLastDay(e: Event, zone: Zone)
    requires e.allDay && Describable(e)
    ensures Layout(e, zone).Ok?
    ensures var first := DayOf(LocalStart(e, zone));
      var end := DayOf(LocalEnd(e, zone));
      var dates := DatesShown(Layout(e, zone).value);
      && dates == (if first == end - 1 then [first] else [first, end - 1])
      && (first < end ==> end !in dates)
      && (first == end ==> end in dates)
    ensures TimesShown(Layout(e, zone).value) == []
  {
    var first, end := DayOf(LocalStart(e, zone)), DayOf(LocalEnd(e, zone));
    var fields := AllDayFields(e.summary, first, end);
    DatesShownConcat(fields, LocationFields(e.location));
    TimesShownConcat(fields, LocationFields(e.location));
    LocationShowsNothing(e.location);
    if first == end - 1 {
      ShownOfTwo(fields);
    } else {
      DatesOfFour(fields);
      TimesOfFour(fields);
    }
  }

  /**
   * A timed event shows the start's date and time and the end's time; the
   * end's date is shown too exactly when the event ends on a later local day.
   */
  lemma TimedShowsBothEnds(e: Event, zone: Zone)
    requires !e.allDay && Describable(e)
    ensures Layout(e, zone).Ok?
    ensures var first := DayOf(LocalStart(e, zone));
      var last := DayOf(LocalEnd(e, zone));
      DatesShown(Layout(e, zone).value) == (if first == last then [first] else [first, last])
    ensures TimesShown(Layout(e, zone).value)
      == [TimeOfDay(LocalStart(e, zone)), TimeOfDay(LocalEnd(e, zone))]
  {
    var fields := Fields(e, zone);
    DatesShownConcat(fields, LocationFields(e.location));
    TimesShownConcat(fields, LocationFields(e.location));
    LocationShowsNothing(e.location);
    DatesOfFour(fields);
    TimesOfFour(fields);
  }

  /**
   * As main.py is written, a timed event shows one date, its start's, even
   * when it ends on a later local day: the end's date is then missing.
   */
  lemma TimedAsWrittenShowsStartDateOnly(e: Event, zone: Zone)
    requires !e.allDay && Describable(e)
    ensures LayoutAsWritten(e, zone).Ok?
    ensures DatesShown(LayoutAsWritten(e, zone).value) == [DayOf(LocalStart(e, zone))]
    ensures TimesShown(LayoutAsWritten(e, zone).value)
      == [TimeOfDay(LocalStart(e, zone)), TimeOfDay(LocalEnd(e, zone))]
    ensures DayOf(LocalEnd(e, zone)) != DayOf(LocalStart(e, zone))
      ==> DayOf(LocalEnd(e, zone)) !in DatesShown(LayoutAsWritten(e, zone).value)
  {
    var fields := FieldsAsWritten(e, zone);
    DatesShownConcat(fields, LocationFields(e.location));
    TimesShownConcat(fields, LocationFields(e.location));
    LocationShowsNothing(e.location);
    DatesOfFour(fields);
    TimesOfFour(fields);
  }

  /** The correction changes the description of exactly the timed events that end on a later local day. */
  lemma CorrectionOnlyAffectsCrossDay(e: Event, zone: Zone)
    ensures Layout(e, zone) == LayoutAsWritten(e, zone)
      <==> !Describable(e) || e.allDay || DayOf(LocalStart(e, zone)) == DayOf(LocalEnd(e, zone))
  {
    if Describable(e) && !e.allDay && DayOf(LocalStart(e, zone)) != DayOf(LocalEnd(e, zone)) {
      assert Layout(e, zone).value[3] != LayoutAsWritten(e, zone).value[3];
    }
  }

  /** The characters one field can contribute to a description. */
  predicate FieldMayShow(f: Field, ch: char)
  {
    match f
    case Lit(text) => ch in text
    case DateField(_) => IsDigit(ch) || ch == '-'
    case DateTimeField(_) => IsDigit(ch) || ch == '-' || ch == ' ' || ch == ':'
    case TimeField(_) => IsDigit(ch) || ch == ':'
  }

  lemma FieldShowsOnly(f: Field, ch: char)
    ensures ch in FieldText(f) ==> FieldMayShow(f, ch)
  {
    if f.DateTimeField? && ch in FieldText(f) {
      var date, time := DateText(DayOf(f.local)), TimeText(f.local);
      assert FieldText(f) == date + " " + time;
      assert ch in date || ch == ' ' || ch in time;
    }
  }

  /** Every character of a rendered description comes from one of its fields. */
  lemma {:induction false} RenderShowsOnly(fields: seq<Field>, ch: char)
    ensures ch in Render(fields) ==> exists f :: f in fields && FieldMayShow(f, ch)
  {
    if fields != [] {
      FieldShowsOnly(fields[0], ch);
      RenderShowsOnly(fields[1..], ch);
      if ch in Render(fields[1..]) {
        var f :| f in fields[1..] && FieldMayShow(f, ch);
        assert f in fields;
      }
    }
  }

  /**
   * A character of a field of either layout comes from the summary, the
   * location, the fixed words around them, or a printed date or time; an
   * all-day field prints ':' only from the summary or the location.
   */
  lemma LayoutMayShow(e: Event, zone: Zone, f: Field, ch: char)
    requires Describable(e) && FieldMayShow(f, ch)
    requires f in LayoutAsWritten(e, zone).value || f in Layout(e, zone).value
    ensures ch in e.summary || (e.location.Some? && ch in e.location.value)
      || ch in "* fromtoa-:" || IsDigit(ch)
    ensures e.allDay && ch == ':' ==> ch in e.summary || (e.location.Some? && ch in e.location.value)
  {
    var start, end := DayOf(LocalStart(e, zone)), DayOf(LocalEnd(e, zone));
    if f in LocationFields(e.location) {
      assert f.text == " at " + e.location.value;
    } else if e.allDay {
      var fields := AllDayFields(e.summary, start, end);
      assert f in fields;
      if start == end - 1 {
        assert f == fields[0] || f == fields[1];
      } else {
        assert f == fields[0] || f == fields[1] || f == fields[2] || f == fields[3];
      }
    } else {
      var written, fields := FieldsAsWritten(e, zone), Fields(e, zone);
      assert f in written || f in fields;
      assert f == fields[0] || f == fields[1] || f == fields[2] || f == fields[3] || f == written[3];
    }
  }

  /**
   * An all-day description prints no time of day: it holds a ':' only when
   * the summary or the location does. Both layouts agree on all-day events.
   */
  lemma AllDayShowsNoTimeOfDay(e: Event, zone: Zone)
    requires e.allDay && Describable(e)
    requires ':' !in e.summary && (e.location.Some? ==> ':' !in e.location.value)
    ensures DescribeAsWritten(e, zone).Ok? && ':' !in DescribeAsWritten(e, zone).value
    ensures Describe(e, zone).Ok? && ':' !in Describe(e, zone).value
  {
    var fields := Layout(e, zone).value;
    assert LayoutAsWritten(e, zone) == Layout(e, zone);
    RenderShowsOnly(fields, ':');
    if ':' in Render(fields) {
      var f :| f in fields && FieldMayShow(f, ':');
      LayoutMayShow(e, zone, f, ':');
    }
  }

  /** A description is the summary between asterisks, followed by the rest, in both layouts. */
  lemma DescriptionStartsWithSummary(e: Event, zone: Zone)
    requires Describable(e)
    ensures DescribeAsWritten(e, zone).Ok? && Describe(e, zone).Ok?
    ensures var text := DescribeAsWritten(e, zone).value;
      |e.summary| + 2 <= |text| && text[..|e.summary| + 2] == "*" + e.summary + "*"
    ensures var text := Describe(e, zone).value;
      |e.summary| + 2 <= |text| && text[..|e.summary| + 2] == "*" + e.summary + "*"
  {
    var written, fields := LayoutAsWritten(e, zone).value, Layout(e, zone).value;
    var head := "*" + e.summary + "*";
    assert written[0] == fields[0];
    assert fields[0].Lit? && |head| <= |fields[0].text| && fields[0].text[..|head|] == head;
    assert Render(written) == written[0].text + Render(written[1..]);
    assert Render(fields) == fields[0].text + Render(fields[1..]);
  }

  /** A description that has a location ends with " at <location>", in both layouts. */
  lemma DescriptionEndsWithLocation(e: Event, zone: Zone)
    requires Describable(e) && e.location.Some?
    ensures DescribeAsWritten(e, zone).Ok? && Describe(e, zone).Ok?
    ensures var text, suffix := DescribeAsWritten(e, zone).value, " at " + e.location.value;
      |suffix| <= |text| && text[|text| - |suffix|..] == suffix
    ensures var text, suffix := Describe(e, zone).value, " at " + e.location.value;
      |suffix| <= |text| && text[|text| - |suffix|..] == suffix
  {
    var suffix := LocationFields(e.location);
    RenderConcat(FieldsAsWritten(e, zone), suffix);
    RenderConcat(Fields(e, zone), suffix);
    assert Render(suffix) == " at " + e.location.value;
  }

  /** Every date and time field renders with a digit last. */
  lemma FieldEndsWithDigit(f: Field)
    requires !f.Lit?
    ensures FieldText(f) != [] && IsDigit(FieldText(f)[|FieldText(f)| - 1])
  {
    if f.DateTimeField? {
      var time := TimeText(f.local);
      assert FieldText(f) == (DateText(DayOf(f.local)) + " ") + time;
    }
  }

  lemma RenderEndsWithLast(fields: seq<Field>)
    requires fields != []
    ensures Render(fields) == Render(fields[..|fields| - 1]) + FieldText(fields[|fields| - 1])
  {
    var last := fields[|fields| - 1];
    assert fields == fields[..|fields| - 1] + [last];
    RenderConcat(fields[..|fields| - 1], [last]);
    assert Render([last]) == FieldText(last) + Render([]);
  }

  /** Fields whose last one is a date or a time render with a digit last. */
  lemma RenderEndsWithDigit(fields: seq<Field>)
    requires fields != [] && !fields[|fields| - 1].Lit?
    ensures Render(fields) != [] && IsDigit(Render(fields)[|Render(fields)| - 1])
  {
    var last := fields[|fields| - 1];
    RenderEndsWithLast(fields);
    FieldEndsWithDigit(last);
    var text, tail := Render(fields), FieldText(last);
    assert text[|text| - 1] == tail[|tail| - 1];
  }

  /**
   * Without a location, nothing follows the last date or time: in both
   * layouts the description ends with a digit.
   */
  lemma DescriptionWithoutLocationEndsWithDigit(e: Event, zone: Zone)
    requires Describable(e) && e.location.None?
    ensures DescribeAsWritten(e, zone).Ok? && Describe(e, zone).Ok?
    ensures var text := DescribeAsWritten(e, zone).value; text != [] && IsDigit(text[|text| - 1])
    ensures var text := Describe(e, zone).value; text != [] && IsDigit(text[|text| - 1])
  {
    var written, fields := FieldsAsWritten(e, zone), Fields(e, zone);
    assert LayoutAsWritten(e, zone).value == written + [] == written;
    assert Layout(e, zone).value == fields + [] == fields;
    RenderEndsWithDigit(written);
    RenderEndsWithDigit(fields);
  }
}
