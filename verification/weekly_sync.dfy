/**
 * The task list of one weekly sync (`TaskScheduler.run_weekly_sync`): no tasks
 * when the week has no assignments; otherwise the busy map is built once from
 * the calendar events and each assignment not yet submitted is analysed and
 * scheduled, its tasks appended in assignment order. Fetching the week's data,
 * the estimator and name-shortening calls, the clock and the hand-off to
 * Todoist are outside the model: what the estimator and the shortener gave,
 * and the day the clock read, arrive with each assignment. The shortener is
 * called outside any `try`, so its exception ends the whole run before
 * anything is handed to Todoist; that outcome is `None`.
 */
module WeeklySync {

  import opened Wrappers
  import opened Busy
  import opened Estimate
  import opened Sessions
  import opened Tasks

  /**
   * One assignment of the week, with what the estimator gave for it, the
   * shortened name (`None` when the shortener raised), and the local day
   * `datetime.now` read when this assignment was scheduled.
   */
  datatype Pending = Pending(assignment: Assignment, outcome: EstimatorOutcome, shortName: Option<string>, today: int)

  /** `all_tasks.extend(tasks)`, where an exception on either side ends the run. */
  function Join(done: Option<seq<Task>>, more: Option<seq<Task>>): Option<seq<Task>> {
    match (done, more)
    case (Some(a), Some(b)) => Some(a + b)
    case _ => None
  }

  lemma JoinAssoc(x: Option<seq<Task>>, y: Option<seq<Task>>, z: Option<seq<Task>>)
    ensures Join(Join(x, y), z) == Join(x, Join(y, z))
  {
    if x.Some? && y.Some? && z.Some? {
      assert x.value + y.value + z.value == x.value + (y.value + z.value);
    }
  }

  /**
   * The loop over the week's assignments for a given per-assignment scheduler:
   * a submitted assignment is skipped, every other one appends its tasks, and
   * a scheduler that raises ends the loop.
   */
  function SyncWith(items: seq<Pending>, schedule: Pending -> Option<seq<Task>>): Option<seq<Task>>
    decreases |items|
  {
    if items == [] then Some([])
    else
      var last := items[|items| - 1];
      var done := SyncWith(items[..|items| - 1], schedule);
      if last.assignment.submitted then done else Join(done, schedule(last))
  }

  /** Name shortening, analysis and scheduling of one assignment against the week's busy map. */
  function ScheduleOne(p: Pending, busy: BusyMap): Option<seq<Task>> {
    match p.shortName
    case None => None
    case Some(name) => Some(ScheduleTasks(p.assignment, Analyze(p.assignment.name, p.outcome), name, busy, p.today))
  }

  /** The loop with the scheduler of this program. */
  function SyncTasks(items: seq<Pending>, busy: BusyMap): Option<seq<Task>> {
    SyncWith(items, p => ScheduleOne(p, busy))
  }

  /** `run_weekly_sync`: nothing at all when the week has no assignments. */
  function WeeklyTasks(items: seq<Pending>, events: seq<Event>): Option<seq<Task>> {
    if items == [] then Some([]) else SyncTasks(items, BusyTimes(events))
  }

  /** The assignments the loop does not skip, in order. */
  function Unsubmitted(items: seq<Pending>): (kept: seq<Pending>)
    ensures forall p :: p in kept <==> p in items && !p.assignment.submitted
    decreases |items|
  {
    if items == [] then []
    else
      Unsubmitted(items[..|items| - 1])
        + (if items[|items| - 1].assignment.submitted then [] else [items[|items| - 1]])
  }

  /** The loop over a concatenation joins the loops over each part, in order. */
  lemma {:induction false} SyncWithAppend(a: seq<Pending>, b: seq<Pending>, schedule: Pending -> Option<seq<Task>>)
    ensures SyncWith(a + b, schedule) == Join(SyncWith(a, schedule), SyncWith(b, schedule))
    decreases |b|
  {
    if b == [] {
      assert a + b == a;
      if SyncWith(a, schedule).Some? {
        assert SyncWith(a, schedule).value + [] == SyncWith(a, schedule).value;
      }
    } else {
      var init, last := b[..|b| - 1], b[|b| - 1];
      assert (a + b)[..|a + b| - 1] == a + init;
      assert (a + b)[|a + b| - 1] == last;
      SyncWithAppend(a, init, schedule);
      if !last.assignment.submitted {
        JoinAssoc(SyncWith(a, schedule), SyncWith(init, schedule), schedule(last));
      }
    }
  }

  /** The loop fails exactly when the scheduler raises for some assignment that is not submitted. */
  lemma {:induction false} SyncWithFails(items: seq<Pending>, schedule: Pending -> Option<seq<Task>>)
    ensures SyncWith(items, schedule).None?
            <==> exists k :: 0 <= k < |items| && !items[k].assignment.submitted && schedule(items[k]).None?
    decreases |items|
  {
    if items != [] {
      var init := items[..|items| - 1];
      SyncWithFails(init, schedule);
      forall k | 0 <= k < |init|
        ensures items[k] == init[k]
      {
      }
    }
  }

  /** Every task the loop yields comes from the schedule of one assignment that is not submitted. */
  lemma {:induction false} SyncWithProvenance(items: seq<Pending>, schedule: Pending -> Option<seq<Task>>, t: Task)
    requires SyncWith(items, schedule).Some? && t in SyncWith(items, schedule).value
    ensures exists k :: && 0 <= k < |items| && !items[k].assignment.submitted
                        && schedule(items[k]).Some? && t in schedule(items[k]).value
    decreases |items|
  {
    var k := |items| - 1;
    if items[k].assignment.submitted || t !in schedule(items[k]).value {
      var init := items[..k];
      SyncWithProvenance(init, schedule, t);
      var j :| && 0 <= j < |init| && !init[j].assignment.submitted
               && schedule(init[j]).Some? && t in schedule(init[j]).value;
      assert init[j] == items[j];
      k := j;
    }
  }

  /** Conversely, every task scheduled for an assignment that is not submitted is in the loop's result. */
  lemma SyncWithComplete(items: seq<Pending>, schedule: Pending -> Option<seq<Task>>, k: int)
    requires SyncWith(items, schedule).Some? && 0 <= k < |items| && !items[k].assignment.submitted
    ensures schedule(items[k]).Some?
    ensures forall t :: t in schedule(items[k]).value ==> t in SyncWith(items, schedule).value
  {
    var before, p, after := items[..k], items[k], items[k + 1..];
    assert items == before + [p] + after;
    SyncWithAppend(before + [p], after, schedule);
    SyncWithAppend(before, [p], schedule);
    assert [p][..0] == [];
  }

  /** Submitted assignments contribute nothing: dropping them first gives the same outcome. */
  lemma {:induction false} SubmittedAreSkipped(items: seq<Pending>, schedule: Pending -> Option<seq<Task>>)
    ensures SyncWith(items, schedule) == SyncWith(Unsubmitted(items), schedule)
    decreases |items|
  {
    if items != [] {
      var init, last := items[..|items| - 1], items[|items| - 1];
      SubmittedAreSkipped(init, schedule);
      var kept := if last.assignment.submitted then [] else [last];
      SyncWithAppend(Unsubmitted(init), kept, schedule);
      if last.assignment.submitted {
        if SyncWith(Unsubmitted(init), schedule).Some? {
          assert SyncWith(Unsubmitted(init), schedule).value + [] == SyncWith(Unsubmitted(init), schedule).value;
        }
      } else {
        assert [last][..0] == [];
      }
    }
  }

  /** A submitted assignment anywhere in the week adds no task, moves no other and raises nothing. */
  lemma SubmittedAddsNothing(before: seq<Pending>, p: Pending, after: seq<Pending>,
                             schedule: Pending -> Option<seq<Task>>)
    requires p.assignment.submitted
    ensures SyncWith(before + [p] + after, schedule) == SyncWith(before + after, schedule)
  {
    SyncWithAppend(before + [p], after, schedule);
    SyncWithAppend(before, [p], schedule);
    SyncWithAppend(before, after, schedule);
    assert [p][..0] == [];
    assert SyncWith([p], schedule) == Some([]);
    if SyncWith(before, schedule).Some? {
      assert SyncWith(before, schedule).value + [] == SyncWith(before, schedule).value;
    }
  }

  /** The per-assignment bounds of the assignments the loop does not skip, added up. */
  function BoundSum(items: seq<Pending>, bound: Pending -> nat): nat
    decreases |items|
  {
    if items == [] then 0
    else
      var last := items[|items| - 1];
      BoundSum(items[..|items| - 1], bound) + (if last.assignment.submitted then 0 else bound(last))
  }

  /** The loop yields at most as many tasks as the bounds of the assignments it does not skip add up to. */
  lemma {:induction false} SyncWithWithinBound(items: seq<Pending>, schedule: Pending -> Option<seq<Task>>,
                                               bound: Pending -> nat)
    requires forall p :: schedule(p).Some? ==> |schedule(p).value| <= bound(p)
    ensures SyncWith(items, schedule).Some? ==> |SyncWith(items, schedule).value| <= BoundSum(items, bound)
    decreases |items|
  {
    if items != [] {
      SyncWithWithinBound(items[..|items| - 1], schedule, bound);
    }
  }

  /** The number of sessions one assignment may get: its session count, or none when that is not positive. */
  function SessionBound(p: Pending): nat {
    var n := SessionCount(Analyze(p.assignment.name, p.outcome));
    if n > 0 then n else 0
  }

  lemma WeeklyIsSync(items: seq<Pending>, events: seq<Event>)
    ensures WeeklyTasks(items, events) == SyncTasks(items, BusyTimes(events))
  {
  }

  /** The run ends without tasks exactly when the shortener raised for an assignment that is not submitted. */
  lemma WeeklyFailsWhenShortenerRaises(items: seq<Pending>, events: seq<Event>)
    ensures WeeklyTasks(items, events).None?
            <==> exists k :: 0 <= k < |items| && !items[k].assignment.submitted && items[k].shortName.None?
  {
    var busy := BusyTimes(events);
    SyncWithFails(items, p => ScheduleOne(p, busy));
  }

  /** The week's tasks number at most the session counts of its unsubmitted assignments added up. */
  lemma WeeklyTasksWithinBudget(items: seq<Pending>, events: seq<Event>)
    ensures WeeklyTasks(items, events).Some? ==> |WeeklyTasks(items, events).value| <= BoundSum(items, SessionBound)
  {
    var busy := BusyTimes(events);
    var schedule := p => ScheduleOne(p, busy);
    forall p | schedule(p).Some?
      ensures |schedule(p).value| <= SessionBound(p)
    {
      assert Max(0, SessionCount(Analyze(p.assignment.name, p.outcome))) == SessionBound(p);
    }
    SyncWithWithinBound(items, schedule, SessionBound);
  }

  /**
   * Every task of the week is one of the tasks scheduled for an assignment that
   * is not submitted, on the day the clock read for it, against the week's busy map.
   */
  lemma WeeklyTaskProvenance(items: seq<Pending>, events: seq<Event>, t: Task)
    requires WeeklyTasks(items, events).Some? && t in WeeklyTasks(items, events).value
    ensures exists k :: && 0 <= k < |items| && !items[k].assignment.submitted && items[k].shortName.Some?
                        && var p := items[k];
                           t in ScheduleTasks(p.assignment, Analyze(p.assignment.name, p.outcome), p.shortName.value,
                                              BusyTimes(events), p.today)
  {
    var busy := BusyTimes(events);
    SyncWithProvenance(items, p => ScheduleOne(p, busy), t);
  }

  /** The loop over a single unsubmitted assignment yields exactly what its schedule gave. */
  lemma SyncWithSingle(p: Pending, schedule: Pending -> Option<seq<Task>>)
    requires !p.assignment.submitted
    ensures SyncWith([p], schedule) == schedule(p)
  {
    assert [p][..0] == [];
    if schedule(p).Some? {
      assert [] + schedule(p).value == schedule(p).value;
    }
  }

  /** A week of one unsubmitted assignment, whose shortener returned a name, yields that assignment's tasks. */
  lemma OneAssignmentWeekExample(events: seq<Event>)
    ensures var a := Assignment(None, "Math", DueOn(10), None, false);
            var out := WeeklyTasks([Pending(a, Raised, Some("Essay"), 0)], events);
            && out.Some? && |out.value| == 1
            && out.value == ScheduleTasks(a, Analyze(None, Raised), "Essay", BusyTimes(events), 0)
  {
    var a := Assignment(None, "Math", DueOn(10), None, false);
    var p := Pending(a, Raised, Some("Essay"), 0);
    var busy := BusyTimes(events);
    var schedule := q => ScheduleOne(q, busy);
    SyncWithSingle(p, schedule);
    assert ScheduleOne(p, busy) == Some(ScheduleTasks(a, Analyze(None, Raised), "Essay", busy, 0));
    OneSessionExample(Analyze(None, Raised), busy);
  }

  /** Every task scheduled for an assignment that is not submitted is among the week's tasks. */
  lemma WeeklyTasksComplete(items: seq<Pending>, events: seq<Event>, k: int)
    requires WeeklyTasks(items, events).Some? && 0 <= k < |items| && !items[k].assignment.submitted
    ensures items[k].shortName.Some?
    ensures var p := items[k];
            forall t :: t in ScheduleTasks(p.assignment, Analyze(p.assignment.name, p.outcome), p.shortName.value,
                                           BusyTimes(events), p.today)
                        ==> t in WeeklyTasks(items, events).value
  {
    var busy := BusyTimes(events);
    SyncWithComplete(items, p => ScheduleOne(p, busy), k);
  }
}
