/**
 * The busy map (`TaskScheduler.get_busy_times`): calendar events reduced to
 * (start hour, end hour) pairs under the local date each event starts on.
 * Reading an event's ISO timestamps and converting them to the scheduler's time
 * zone is outside the model: each boundary arrives already localised, or as a
 * failure.
 */
module Busy {

  /** One side of an event: no timestamp at all, one that does not parse, or a local day and hour. */
  datatype Boundary = Missing | Malformed | At(day: int, hour: int)

  datatype Event = Event(start: Boundary, end: Boundary)

  /** A busy stretch of a day; hour h is busy when start <= h < end. */
  datatype Interval = Interval(start: int, end: int)

  /** Busy intervals keyed by local day number (the source keys by the ISO text of the day). */
  type BusyMap = map<int, seq<Interval>>

  /** `busy_times.get(date_key, [])`. */
  function IntervalsOn(busy: BusyMap, day: int): seq<Interval> {
    if day in busy then busy[day] else []
  }

  /** An event is recorded only when both its start and its end are readable. */
  predicate Recorded(e: Event) {
    e.start.At? && e.end.At?
  }

  /** The interval an event contributes. */
  function IntervalOf(e: Event): Interval
    requires Recorded(e)
  {
    Interval(e.start.hour, e.end.hour)
  }

  /** Reference: the intervals of the recorded events that start on `day`, in event order. */
  function EventsOn(events: seq<Event>, day: int): seq<Interval>
    decreases |events|
  {
    if events == [] then []
    else
      var last := events[|events| - 1];
      EventsOn(events[..|events| - 1], day)
        + (if Recorded(last) && last.start.day == day then [IntervalOf(last)] else [])
  }

  /** `get_busy_times`: one pass over the events, appending to the start day's list. */
  function BusyTimes(events: seq<Event>): (busy: BusyMap)
    ensures forall day :: IntervalsOn(busy, day) == EventsOn(events, day)
    ensures forall day :: day in busy <==> EventsOn(events, day) != []
    decreases |events|
  {
    if events == [] then map[]
    else
      var before := BusyTimes(events[..|events| - 1]);
      var e := events[|events| - 1];
      if Recorded(e) then before[e.start.day := IntervalsOn(before, e.start.day) + [IntervalOf(e)]]
      else before
  }

  /** The day lists of a concatenation are the day lists of its parts, concatenated. */
  lemma {:induction false} EventsOnAppend(a: seq<Event>, b: seq<Event>, day: int)
    ensures EventsOn(a + b, day) == EventsOn(a, day) + EventsOn(b, day)
    decreases |b|
  {
    if b != [] {
      var b' := b[..|b| - 1];
      assert (a + b)[..|a + b| - 1] == a + b';
      assert (a + b)[|a + b| - 1] == b[|b| - 1];
      EventsOnAppend(a, b', day);
    } else {
      assert a + b == a;
    }
  }

  /** An unreadable event adds nothing to any day's list, wherever it stands. */
  lemma EventsOnSkipped(before: seq<Event>, e: Event, after: seq<Event>, day: int)
    requires !Recorded(e)
    ensures EventsOn(before + [e] + after, day) == EventsOn(before + after, day)
  {
    EventsOnAppend(before + [e], after, day);
    EventsOnAppend(before, [e], day);
    EventsOnAppend(before, after, day);
    assert [e][..0] == [];
  }

  /** The busy map is determined by the day lists: event lists that agree on every day give the same map. */
  lemma SameDaysSameMap(a: seq<Event>, b: seq<Event>)
    requires forall day :: EventsOn(a, day) == EventsOn(b, day)
    ensures BusyTimes(a) == BusyTimes(b)
  {
    var m1, m2 := BusyTimes(a), BusyTimes(b);
    forall day
      ensures day in m1.Keys <==> day in m2.Keys
    {
      assert day in m1 <==> EventsOn(a, day) != [];
      assert day in m2 <==> EventsOn(b, day) != [];
    }
    assert m1.Keys == m2.Keys;
    forall day | day in m1
      ensures m1[day] == m2[day]
    {
      assert m1[day] == IntervalsOn(m1, day);
      assert m2[day] == IntervalsOn(m2, day);
    }
  }

  /** An event whose start or end cannot be read is skipped and changes nothing else. */
  lemma SkippedEventChangesNothing(before: seq<Event>, e: Event, after: seq<Event>)
    requires !Recorded(e)
    ensures BusyTimes(before + [e] + after) == BusyTimes(before + after)
  {
    forall day
      ensures EventsOn(before + [e] + after, day) == EventsOn(before + after, day)
    {
      EventsOnSkipped(before, e, after, day);
    }
    SameDaysSameMap(before + [e] + after, before + after);
  }

  /** A readable event adds exactly its interval, at the end of its start day's list and nowhere else. */
  lemma RecordedEventAppendsOnce(before: seq<Event>, e: Event, day: int)
    requires Recorded(e)
    ensures IntervalsOn(BusyTimes(before + [e]), day)
            == IntervalsOn(BusyTimes(before), day) + (if day == e.start.day then [IntervalOf(e)] else [])
  {
    EventsOnAppend(before, [e], day);
    assert EventsOn([e], day) == EventsOn([], day) + (if day == e.start.day then [IntervalOf(e)] else []);
  }
}
