/**
 * The weekly window of `get_remaining_weekly_assignments` and
 * `check_new_weekly_assignments`: from now until the coming Sunday at 23:59
 * local time, and the new-items check over it. The local time is now's UTC
 * instant shifted by the zone's UTC offset, taken as one fixed offset for the
 * whole week.
 */
module Week {

  import opened Days
  import opened Pagination
  import opened Courses
  import opened Assignments
  import opened Wrappers

  /** 23:59:00 as seconds after midnight. */
  const EndOfDay := 23 * 3600 + 59 * 60

  /** The local day number of a UTC instant. */
  function LocalDay(nowUtc: int, offset: int): (day: int)
    ensures day * SecondsPerDay <= nowUtc + offset < (day + 1) * SecondsPerDay
  {
    (nowUtc + offset) / SecondsPerDay
  }

  /** `end_utc`: the coming Sunday (today if it is one) at 23:59:00 local, as a UTC instant. */
  function WeekEnd(nowUtc: int, offset: int): (end: int)
    ensures var day := (end + offset - EndOfDay) / SecondsPerDay;
            && (end + offset - EndOfDay) % SecondsPerDay == 0
            && IsSunday(day)
            && LocalDay(nowUtc, offset) <= day < LocalDay(nowUtc, offset) + 7
  {
    var today := LocalDay(nowUtc, offset);
    var k := DaysUntilSunday(Weekday(today));
    EndOfWeekIsFirstSunday(today);
    var end := (today + k) * SecondsPerDay + EndOfDay - offset;
    assert end + offset - EndOfDay == (today + k) * SecondsPerDay;
    end
  }

  /**
   * The window ends on the first Sunday on or after today, less than a week
   * ahead; it starts at most 59 seconds after it ends, that is only within
   * the last minute of a Sunday.
   */
  lemma WeekWindowBounds(nowUtc: int, offset: int)
    ensures var today := LocalDay(nowUtc, offset);
            var day := (WeekEnd(nowUtc, offset) + offset - EndOfDay) / SecondsPerDay;
            && (forall d :: today <= d < day ==> !IsSunday(d))
            && WeekEnd(nowUtc, offset) - nowUtc < 7 * SecondsPerDay
            && nowUtc - WeekEnd(nowUtc, offset) < 60
            && (nowUtc > WeekEnd(nowUtc, offset) ==> IsSunday(today))
  {
    var today := LocalDay(nowUtc, offset);
    var k := DaysUntilSunday(Weekday(today));
    EndOfWeekIsFirstSunday(today);
    var end := WeekEnd(nowUtc, offset);
    assert end + offset - EndOfDay == (today + k) * SecondsPerDay;
    assert (end + offset - EndOfDay) / SecondsPerDay == today + k;
    if nowUtc > end {
      assert k == 0;
    }
  }

  /**
   * `check_new_weekly_assignments` without its persistence step: the window's
   * records whose `(courseId, assignmentId)` is not among the stored ones.
   */
  function CheckNewWeekly(courses: seq<Course>, fetch: int -> seq<Response<CanvasAssignment>>,
                          nowUtc: int, offset: int, already: set<(int, int)>): (r: Option<seq<Record>>)
    ensures r.None? <==> WindowRecords(courses, fetch, nowUtc, WeekEnd(nowUtc, offset)).None?
    ensures r.Some? ==>
              forall x :: x in r.value <==>
                x in WindowRecords(courses, fetch, nowUtc, WeekEnd(nowUtc, offset)).value && IsNew(x, already)
  {
    match WindowRecords(courses, fetch, nowUtc, WeekEnd(nowUtc, offset))
    case None => None
    case Some(fetched) =>
      WindowRecordsInWindow(courses, fetch, nowUtc, WeekEnd(nowUtc, offset));
      Some(NewItems(fetched, already))
  }
}
