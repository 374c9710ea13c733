/** The event window builder: turning a date, or a first and last date, into
    an all-day event anchored at midnight. */
module Events {
  import opened Wrappers
  import opened Gregorian

  /** The exceptions the calendar code lets propagate: `ValueError` from
      `datetime(...)`, `OverflowError` from `timedelta` arithmetic, and the
      lunar library's error for a lunar date that does not exist. */
  datatype Error = InvalidDate | DateOverflow | LunarDateNotFound

  /** A `datetime`; its time zone is the same for every value of a run and
      is not represented. */
  datatype DateTime = DateTime(date: Date, hour: int, minute: int, second: int, microsecond: int)

  predicate IsMidnight(t: DateTime) {
    t.hour == 0 && t.minute == 0 && t.second == 0 && t.microsecond == 0
  }

  /** `t.replace(hour=0, minute=0, second=0, microsecond=0)`. */
  function Midnight(t: DateTime): (r: DateTime)
    ensures IsMidnight(r) && r.date == t.date
  {
    t.(hour := 0, minute := 0, second := 0, microsecond := 0)
  }

  /** `datetime(year, month, day)`: midnight of that date, or `ValueError`. */
  function MakeDateTime(d: Date): (r: Result<DateTime, Error>)
    ensures r.Ok? <==> ValidDate(d)
    ensures r.Ok? ==> r.value.date == d && IsMidnight(r.value)
    ensures r.Err? ==> r.error == InvalidDate
  {
    if ValidDate(d) then Ok(DateTime(d, 0, 0, 0, 0)) else Err(InvalidDate)
  }

  /** `t + timedelta(days=1)`: the next date at the same time of day. */
  function AddOneDay(t: DateTime): (r: Result<DateTime, Error>)
    requires ValidDate(t.date)
    ensures r.Err? <==> t.date == LastDate
    ensures r.Err? ==> r.error == DateOverflow
    ensures r.Ok? ==> ValidDate(r.value.date) && Ordinal(r.value.date) == Ordinal(t.date) + 1
    ensures r.Ok? ==> r.value.(date := t.date) == t
  {
    match NextDay(t.date)
    case None => Err(DateOverflow)
    case Some(n) => NextDayOrdinal(t.date); Ok(t.(date := n))
  }

  /** `t - timedelta(days=1)`: the previous date at the same time of day. */
  function SubtractOneDay(t: DateTime): (r: Result<DateTime, Error>)
    requires ValidDate(t.date)
    ensures r.Err? <==> t.date == FirstDate
    ensures r.Err? ==> r.error == DateOverflow
    ensures r.Ok? ==> ValidDate(r.value.date) && Ordinal(r.value.date) + 1 == Ordinal(t.date)
    ensures r.Ok? ==> r.value.(date := t.date) == t
  {
    match PrevDay(t.date)
    case None => Err(DateOverflow)
    case Some(p) => PrevDayOrdinal(t.date); Ok(t.(date := p))
  }

  /** An `ics.Event` as this code fills it in: a name, a begin and, for a
      multi-day event, an end. A single-day event leaves `end` unset. */
  datatype Event = Event(name: string, begin: DateTime, end: Option<DateTime>)

  /** `_create_event`: an event named `name` that begins at midnight of the
      given date and sets no end. */
  function CreateEvent(name: string, date: DateTime): (r: Event)
    ensures r.name == name
    ensures r.begin.date == date.date && IsMidnight(r.begin)
    ensures r.end.None?
  {
    Event(name, Midnight(date), None)
  }

  /** `_create_multiday_event`: begins at midnight of the first day and ends
      (exclusively) at midnight of the day after the last day. No check that
      the last day is not before the first one. */
  function CreateMultidayEvent(name: string, start: DateTime, last: DateTime): (r: Result<Event, Error>)
    requires ValidDate(start.date) && ValidDate(last.date)
  {
    match AddOneDay(last)
    case Err(e) => Err(e)
    case Ok(after) => Ok(Event(name, Midnight(start), Some(Midnight(after))))
  }

  /** The window of a multi-day event is the half-open interval
      [first day, last day + 1): it begins on the first day, its end is the
      day after the last day, both at midnight, and it is one day longer than
      the distance between the two days. When the last day is not before the
      first one, the end is strictly after the begin; when it is before, the
      window is empty, since nothing rejects such a range. */
  lemma MultidayWindow(name: string, start: DateTime, last: DateTime)
    requires ValidDate(start.date) && ValidDate(last.date)
    ensures CreateMultidayEvent(name, start, last).Err? <==> last.date == LastDate
    ensures CreateMultidayEvent(name, start, last).Err? ==>
              CreateMultidayEvent(name, start, last).error == DateOverflow
    ensures CreateMultidayEvent(name, start, last).Ok? ==>
              var e := CreateMultidayEvent(name, start, last).value;
              && e.name == name
              && e.begin.date == start.date && IsMidnight(e.begin)
              && e.end.Some? && IsMidnight(e.end.value)
              && Some(e.end.value.date) == NextDay(last.date)
              && ValidDate(e.end.value.date)
              && Ordinal(e.end.value.date) - Ordinal(e.begin.date) == Ordinal(last.date) - Ordinal(start.date) + 1
              && (!Before(last.date, start.date) <==> Before(e.begin.date, e.end.value.date))
  {
    if last.date != LastDate {
      var after := NextDay(last.date).value;
      NextDayOrdinal(last.date);
      OrdinalOrder(last.date, start.date);
      OrdinalOrder(start.date, after);
    }
  }
}
