/**
 * The slot choice (`TaskScheduler.find_available_slot`): the first hour of the
 * 8 AM to 10 PM working window that no busy interval of the day covers, shown on
 * a 12-hour clock, with 6 PM when every hour is taken. The requested duration is
 * accepted and not used, and nothing records which hours earlier sessions got.
 */
module Slots {

  import opened Wrappers
  import opened Text
  import opened Busy

  /** `range(8, 22)`: the first and one past the last hour that is tried. */
  const WorkStart := 8
  const WorkEnd := 22

  /** The hour used when no working hour is free. */
  const FallbackHour := 18

  /** Some interval of the day covers hour h. */
  predicate HourBusy(intervals: seq<Interval>, h: int) {
    exists i :: 0 <= i < |intervals| && intervals[i].start <= h < intervals[i].end
  }

  /** The first hour from `from` up to 21 that no interval covers, if there is one. */
  function FirstFreeHour(intervals: seq<Interval>, from: int): (r: Option<int>)
    requires WorkStart <= from
    ensures r.Some? ==> from <= r.value < WorkEnd && !HourBusy(intervals, r.value)
    ensures r.Some? ==> forall h :: from <= h < r.value ==> HourBusy(intervals, h)
    ensures r.None? ==> forall h :: from <= h < WorkEnd ==> HourBusy(intervals, h)
    decreases WorkEnd - from
  {
    if from >= WorkEnd then None
    else if !HourBusy(intervals, from) then Some(from)
    else FirstFreeHour(intervals, from + 1)
  }

  /** The hour `find_available_slot` settles on for a day. */
  function SuggestedHour(busy: BusyMap, day: int): (h: int)
    ensures WorkStart <= h < WorkEnd
    ensures !HourBusy(IntervalsOn(busy, day), h) ==>
              forall y :: WorkStart <= y < h ==> HourBusy(IntervalsOn(busy, day), y)
    ensures HourBusy(IntervalsOn(busy, day), h) ==>
              h == FallbackHour && forall y :: WorkStart <= y < WorkEnd ==> HourBusy(IntervalsOn(busy, day), y)
  {
    FirstFreeHour(IntervalsOn(busy, day), WorkStart).GetOr(FallbackHour)
  }

  /** The hour is the smallest free working hour: any free working hour is at or after it. */
  lemma SuggestedHourIsLeastFree(busy: BusyMap, day: int, h: int)
    requires WorkStart <= h < WorkEnd && !HourBusy(IntervalsOn(busy, day), h)
    ensures SuggestedHour(busy, day) <= h
    ensures !HourBusy(IntervalsOn(busy, day), SuggestedHour(busy, day))
  {
  }

  /** `f"{display_hour}:00 {period}"` for an hour of the day. */
  function ClockLabel(h: int): (shown: string)
    requires 0 <= h < 24
    ensures |shown| >= 7
    ensures shown[|shown| - 6..] == ":00 AM" <==> h < 12
    ensures shown[|shown| - 6..] == ":00 PM" <==> h >= 12
  {
    var display := if h == 0 then 12 else if h <= 12 then h else h - 12;
    if h < 12 then
      LabelEnding(NatToString(display), ":00 AM", ":00 PM");
      NatToString(display) + ":00 AM"
    else
      LabelEnding(NatToString(display), ":00 PM", ":00 AM");
      NatToString(display) + ":00 PM"
  }

  /** A label that ends in one period's tail does not end in the other's. */
  lemma LabelEnding(digits: string, tail: string, other: string)
    requires |digits| >= 1 && |tail| == 6 && |other| == 6 && tail[4] != other[4]
    ensures var shown := digits + tail;
            |shown| >= 7 && shown[|shown| - 6..] == tail && shown[|shown| - 6..] != other
  {
    var shown := digits + tail;
    assert shown[|shown| - 6..] == tail;
  }

  /** Reads a 12-hour label back into an hour of the day. */
  function ParseClockLabel(text: string): Option<int> {
    if |text| < 7 then None
    else
      var suffix := text[|text| - 6..];
      match ParseNat(text[..|text| - 6])
      case None => None
      case Some(n) =>
        if !(1 <= n <= 12) then None
        else if suffix == ":00 AM" then Some(n % 12)
        else if suffix == ":00 PM" then Some(n % 12 + 12)
        else None
  }

  /** The label names its hour unambiguously: reading it back gives the hour. */
  lemma ClockLabelRoundTrip(h: int)
    requires 0 <= h < 24
    ensures ParseClockLabel(ClockLabel(h)) == Some(h)
  {
    var display := if h == 0 then 12 else if h <= 12 then h else h - 12;
    var text := ClockLabel(h);
    assert text[..|text| - 6] == NatToString(display);
    ParseNatToString(display);
  }

  lemma ClockLabelExamples()
    ensures ClockLabel(0) == "12:00 AM"
    ensures ClockLabel(8) == "8:00 AM"
    ensures ClockLabel(12) == "12:00 PM"
    ensures ClockLabel(FallbackHour) == "6:00 PM"
  {
    assert NatToString(12) == "12";
    assert NatToString(8) == "8";
    assert NatToString(6) == "6";
  }

  /**
   * `find_available_slot`: scans the working hours in order, checking each busy
   * interval of the day, and returns the label of the first hour none covers.
   * The label depends on the day's intervals only, never on `durationMinutes`.
   */
  method FindAvailableSlot(day: int, busy: BusyMap, durationMinutes: int) returns (slot: string)
    ensures slot == ClockLabel(SuggestedHour(busy, day))
  {
    var intervals := IntervalsOn(busy, day);
    var hour := WorkStart;
    while hour < WorkEnd
      invariant WorkStart <= hour <= WorkEnd
      invariant forall h :: WorkStart <= h < hour ==> HourBusy(intervals, h)
    {
      // Stops at the first interval covering `hour` (the source's `break`).
      var k := 0;
      while k < |intervals| && !(intervals[k].start <= hour < intervals[k].end)
        invariant 0 <= k <= |intervals|
        invariant forall j :: 0 <= j < k ==> !(intervals[j].start <= hour < intervals[j].end)
      {
        k := k + 1;
      }
      var isFree := k == |intervals|;
      if isFree {
        assert !HourBusy(intervals, hour);
        SuggestedHourIsLeastFree(busy, day, hour);
        slot := ClockLabel(hour);
        return;
      }
      hour := hour + 1;
    }
    slot := "6:00 PM";
    ClockLabelExamples();
  }
}
