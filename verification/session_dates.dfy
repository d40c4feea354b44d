/**
 * Session dates (the date loop of `TaskScheduler.schedule_assignment_tasks`).
 * Session i of n is placed `max(0, days_back - i*max(1, days_back // n))` days
 * after today, moved off a Sunday, pulled back before the due day when it lands
 * on or after it, and dropped when that leaves it before today. Dates are local
 * day numbers; `due - today` is the source's `days_until_due`.
 */
module Sessions {

  import opened Days
  import opened Lists

  /** Each pair of positions is in order: earlier sessions are on the same day or later. */
  predicate NonIncreasing(s: seq<int>) {
    forall i, j :: 0 <= i < j < |s| ==> s[i] >= s[j]
  }

  function Min(a: int, b: int): int {
    if a <= b then a else b
  }

  function Max(a: int, b: int): int {
    if a >= b then a else b
  }

  /** `days_back = min(days_until_due - 1, num_sessions)`. */
  function DaysBack(daysUntilDue: int, n: int): int {
    Min(daysUntilDue - 1, n)
  }

  /** `max(1, days_back // num_sessions)`; `/` by a positive divisor floors, as Python's `//` does. */
  function Spacing(daysBack: int, n: int): (s: int)
    requires n >= 1
    ensures s >= 1
  {
    Max(1, daysBack / n)
  }

  /** Days after today that session i is first placed at. */
  function Offset(daysBack: int, n: int, i: int): (o: int)
    requires n >= 1
    ensures o >= 0
  {
    Max(0, daysBack - i * Spacing(daysBack, n))
  }

  /** `while task_date.weekday() == 6: task_date += 1 day`: the first day on or after d that is not a Sunday. */
  function NextNonSunday(d: int): (r: int)
    ensures d <= r && !IsSunday(r)
    ensures forall x :: d <= x < r ==> IsSunday(x)
  {
    if IsSunday(d) then d + 1 else d
  }

  /** `while task_date.weekday() == 6: task_date -= 1 day`: the last day on or before d that is not a Sunday. */
  function PrevNonSunday(d: int): (r: int)
    ensures r <= d && !IsSunday(r)
    ensures forall x :: r < x <= d ==> IsSunday(x)
  {
    if IsSunday(d) then d - 1 else d
  }

  /** The date session i gets before the "not before today" check. */
  function Candidate(today: int, due: int, n: int, i: int): (d: int)
    requires n >= 1
    ensures d < due && !IsSunday(d)
  {
    var t := NextNonSunday(today + Offset(DaysBack(due - today, n), n, i));
    if t >= due then PrevNonSunday(due - 1) else t
  }

  function Candidates(today: int, due: int, n: int): (c: seq<int>)
    ensures |c| == Max(0, n)
  {
    if n <= 0 then [] else seq(n, i requires 0 <= i < n => Candidate(today, due, n, i))
  }

  /** The condition `task_date.date() >= current_date.date()` under which a date is appended. */
  function NotBefore(today: int): int -> bool {
    d => d >= today
  }

  /** The session dates of an assignment due on `due`, asked for n sessions, scheduled on `today`. */
  function SessionDates(today: int, due: int, n: int): (dates: seq<int>)
    ensures |dates| <= Max(0, n)
    ensures forall d :: d in dates ==> today <= d < due && !IsSunday(d)
  {
    var c := Candidates(today, due, n);
    var dates := Filter(c, NotBefore(today));
    assert forall d :: d in dates ==> d in c && d >= today by {
      forall d | d in dates
        ensures d in c && d >= today
      {
        FilterMembers(c, NotBefore(today), d);
      }
    }
    dates
  }

  lemma OffsetsNonIncreasing(daysBack: int, n: int, i: int, j: int)
    requires n >= 1 && i <= j
    ensures Offset(daysBack, n, i) >= Offset(daysBack, n, j) >= 0
  {
    var s := Spacing(daysBack, n);
    assert j * s == i * s + (j - i) * s;
  }

  lemma CandidatesNonIncreasing(today: int, due: int, n: int, i: int, j: int)
    requires n >= 1 && i <= j
    ensures Candidate(today, due, n, i) >= Candidate(today, due, n, j)
  {
    var back := DaysBack(due - today, n);
    OffsetsNonIncreasing(back, n, i, j);
    var ti := NextNonSunday(today + Offset(back, n, i));
    var tj := NextNonSunday(today + Offset(back, n, j));
    assert ti >= tj;
  }

  /** On a non-increasing list the dates kept are a prefix: only trailing entries are ever dropped. */
  lemma {:induction false} KeptDatesArePrefix(s: seq<int>, today: int)
    requires NonIncreasing(s)
    ensures Filter(s, NotBefore(today)) == s[..|Filter(s, NotBefore(today))|]
    decreases |s|
  {
    if s != [] {
      var init := s[..|s| - 1];
      KeptDatesArePrefix(init, today);
      if s[|s| - 1] >= today {
        FilterAllKept(s, NotBefore(today));
      } else {
        assert s[..|Filter(init, NotBefore(today))|] == init[..|Filter(init, NotBefore(today))|];
      }
    }
  }

  /**
   * Session dates never move forward with the session index (part 1 is on the
   * same day as part 2 or later), the kept dates are the first candidates (a
   * dropped session is always one of the last), and a candidate is kept
   * exactly when it is not before today.
   */
  lemma SessionDatesOrder(today: int, due: int, n: int)
    ensures SessionDates(today, due, n) == Candidates(today, due, n)[..|SessionDates(today, due, n)|]
    ensures NonIncreasing(SessionDates(today, due, n))
    ensures forall d :: d in SessionDates(today, due, n) <==> d in Candidates(today, due, n) && d >= today
  {
    var c := Candidates(today, due, n);
    forall d
      ensures d in SessionDates(today, due, n) <==> d in c && d >= today
    {
      FilterMembers(c, NotBefore(today), d);
    }
    forall i, j | 0 <= i < j < |c|
      ensures c[i] >= c[j]
    {
      CandidatesNonIncreasing(today, due, n, i, j);
    }
    KeptDatesArePrefix(c, today);
  }

  /** A due date of today or earlier leaves no session. */
  lemma DueNotAfterTodayGivesNothing(today: int, due: int, n: int)
    requires due <= today
    ensures SessionDates(today, due, n) == []
  {
    FilterNoneKept(Candidates(today, due, n), NotBefore(today));
  }

  /** Two or more days ahead, every asked-for session gets a date. */
  lemma AllSessionsPlacedWhenDueTwoDaysOut(today: int, due: int, n: int)
    requires due - today >= 2 && n >= 1
    ensures |SessionDates(today, due, n)| == n
  {
    var c := Candidates(today, due, n);
    forall i | 0 <= i < |c|
      ensures c[i] >= today
    {
      var t := NextNonSunday(today + Offset(DaysBack(due - today, n), n, i));
      if t >= due {
        assert PrevNonSunday(due - 1) >= due - 2;
      }
    }
    FilterAllKept(c, NotBefore(today));
  }

  /**
   * Scheduled on Thursday 1970-01-01 (day 0) for a due day ten days later,
   * three sessions land on Sunday-shifted day 4, then day 2, then day 1: part 1
   * comes last in time, and the dates decrease.
   */
  lemma ThreeSessionsExample()
    ensures SessionDates(0, 10, 3) == [4, 2, 1]
  {
    assert IsSunday(3) && !IsSunday(4) && !IsSunday(2) && !IsSunday(1);
    assert Candidates(0, 10, 3) == [4, 2, 1];
    FilterAllKept([4, 2, 1], NotBefore(0));
  }

  /** One pass of the loop body: the offset, the forward Sunday skip and the pull-back before the due day. */
  method PlaceSession(today: int, due: int, n: int, i: int) returns (taskDate: int)
    requires n >= 1
    ensures taskDate == Candidate(today, due, n, i)
  {
    var daysBack := Min(due - today - 1, n);
    var offset := daysBack - i * Max(1, daysBack / n);
    offset := Max(0, offset);
    taskDate := today + offset;
    while IsSunday(taskDate)
      invariant taskDate == today + offset || (IsSunday(today + offset) && taskDate == today + offset + 1)
      decreases if IsSunday(taskDate) then 1 else 0
    {
      taskDate := taskDate + 1;
    }
    if taskDate >= due {
      taskDate := due - 1;
      while IsSunday(taskDate)
        invariant taskDate == due - 1 || (IsSunday(due - 1) && taskDate == due - 2)
        decreases if IsSunday(taskDate) then 1 else 0
      {
        taskDate := taskDate - 1;
      }
    }
  }

  /** The loop as the source writes it, appending each date that is not before today. */
  method PlanSessionDates(today: int, due: int, n: int) returns (dates: seq<int>)
    ensures dates == SessionDates(today, due, n)
    ensures |dates| <= Max(0, n)
    ensures forall d :: d in dates ==> today <= d < due && !IsSunday(d)
  {
    dates := [];
    if n <= 0 {
      return;
    }
    ghost var c := Candidates(today, due, n);
    var i := 0;
    while i < n
      invariant 0 <= i <= n
      invariant dates == Filter(c[..i], NotBefore(today))
    {
      var taskDate := PlaceSession(today, due, n, i);
      FilterPrefixStep(c, i, NotBefore(today));
      if taskDate >= today {
        dates := dates + [taskDate];
      }
      i := i + 1;
    }
    assert c[..n] == c;
  }
}
