# Weekly Canvas → Todoist scheduling, modelled in Dafny

This project models the scheduling core of a student assistant. The assistant
reads a student's Canvas assignments and Google Calendar events. It then turns
every assignment not yet submitted into one or more dated, timed Todoist work
sessions. The model covers two source files.

`src/backend/agent/agent.py` (`TaskScheduler`):

- the estimate read-back and its fallback in `analyze_assignment`;
- the busy map of `get_busy_times`;
- the hour choice of `find_available_slot`;
- the session dates and the task fields built by `schedule_assignment_tasks`;
- the assignment loop of `run_weekly_sync`, which skips submitted work.

`src/backend/services/canvas.py` (`CanvasService`):

- the page loop `_paginated`;
- the course de-duplication of `get_all_courses`;
- the `only_upcoming` filter and `(rank, due)` sort of `get_all_assignments`;
- the `[start, end)` window and due-order sort of `_fetch_and_filter_window`;
- the end-of-week arithmetic and the new-items diff of `check_new_weekly_assignments`.

Every operation is a pure function over immutable datatypes. Two of them also
appear as loops with invariants: the hour scan (`Slots.FindAvailableSlot`) and
the session-date loop (`Sessions.PlanSessionDates`, `Sessions.PlaceSession`).
The page loop is one too (`Pagination.FetchAll`). Each such method is proved
equal to its functional definition, or characterised directly.

Conventions:

- Dates are integer day numbers. Day 0 is 1970-01-01, a Thursday.
- `Days.Weekday` is Python's `date.weekday()`, so Sunday is 6.
- `Days.IsoDate` is `date.isoformat()`, built from the proleptic Gregorian
  civil conversion. It is proved to read back over Python's whole date range.
- Dafny's `/` and `%` with a positive divisor are Python's floor `//` and `%`.
  The model uses them directly, including for a negative `days_back`.
- Hours are integers.
- Canvas due timestamps are UTC instants in seconds, together with the UTC
  offset they were written with.
- Calendar boundaries and agent due dates arrive already converted to the
  scheduler's time zone.
- The estimator's answer, the shortened assignment name (or the shortener's
  exception), the day the clock reads for each assignment and every network
  response are inputs.
- A Canvas request that raises is an explicit `Failed` / `Aborted` / `None` value.

Three facts about the code shape the model:

- There is no slot registry. Two sessions on the same day get the same hour,
  and `duration_minutes` is never used (`Slots.FindAvailableSlot`).
- The estimate is not normalised or clamped. When splitting, a `num_sessions`
  of 0 or less gives no sessions; without a split the count is always 1. Any
  duration is formatted as given.
- Session dates do not increase. `Sessions.SessionDatesOrder` proves they
  never increase with the session index, and `Sessions.ThreeSessionsExample`
  shows part 1 falling after parts 2 and 3.

## Model

| member | source | states |
|---|---|---|
| `Estimate.Analyze` | src/backend/agent/agent.py:97-133 | If the estimator raises or a numeric field fails to convert, the result is exactly 1.0 h, no split, 1 session, 60 min, the assignment name (default "Untitled") and no parts. Otherwise each field is the estimator's value or its default. `should_split` holds iff the text lower-cases to "true". The parts are the non-empty labels among the three, only when splitting. There are at most 3 parts, all non-empty. |
| `Estimate.NonEmptyPartsKeepOrder` | src/backend/agent/agent.py:106-113 | Two non-empty labels keep their relative order among the kept session parts. |
| `Estimate.NonEmptyPartsIsFilter` | src/backend/agent/agent.py:106-113 | The kept session parts are exactly `[p for p in parts if p]`: each non-empty part once, in order, and nothing else. |
| `Busy.BusyTimes` | src/backend/agent/agent.py:135-159 | For every day, the busy list is exactly the `(startHour, endHour)` pairs of the events that start that day and whose start and end both read, in event order. A day is a key iff it has such an event. |
| `Busy.EventsOnSkipped` | src/backend/agent/agent.py:139-157 | An event with a missing or unreadable start or end leaves every day's pairs as if it were absent. |
| `Busy.SameDaysSameMap` | src/backend/agent/agent.py:135-159 | Two event lists with the same pairs on every day give the same busy map. |
| `Busy.SkippedEventChangesNothing` | src/backend/agent/agent.py:139-157 | An event with a missing or unreadable start or end leaves the whole map as if it were absent. |
| `Busy.RecordedEventAppendsOnce` | src/backend/agent/agent.py:152-155 | A readable event appends exactly one pair, at the end of its start day's list, and changes no other day. |
| `Busy.EventsOnAppend` | src/backend/agent/agent.py:138-155 | A day's pairs for a concatenation of event lists are the two lists' pairs, concatenated. |
| `Slots.FirstFreeHour` | src/backend/agent/agent.py:166-174 | The result is the first hour from the start hour to 21 that no busy pair `(s, e)` covers with `s <= h < e`. If there is none, every one of those hours is covered. |
| `Slots.SuggestedHour` | src/backend/agent/agent.py:161-183 | The hour lies in 8..21. If it is free, every earlier working hour is busy. If it is busy, it is 18 and every working hour is busy. |
| `Slots.SuggestedHourIsLeastFree` | src/backend/agent/agent.py:166-174 | Any free working hour is at or after the chosen hour, and the chosen hour is then free. |
| `Slots.ClockLabel` | src/backend/agent/agent.py:175-180 | The label ends in ":00 AM" iff the hour is before 12, and in ":00 PM" iff it is 12 or later. |
| `Slots.ClockLabelRoundTrip` | src/backend/agent/agent.py:175-180 | Every hour 0..23 reads back from its 12-hour label, so no two hours share a label. |
| `Slots.ClockLabelExamples` | src/backend/agent/agent.py:175-183 | 0 shows as "12:00 AM", 8 as "8:00 AM", 12 as "12:00 PM" and the fallback 18 as "6:00 PM". |
| `Slots.FindAvailableSlot` | src/backend/agent/agent.py:161-183 | The nested scan returns the label of the least free working hour of the day, or "6:00 PM". It depends on the day's busy pairs only, not on the duration. |
| `Sessions.NextNonSunday` | src/backend/agent/agent.py:228-229 | The result is the first day on or after the given day that is not a Sunday. |
| `Sessions.PrevNonSunday` | src/backend/agent/agent.py:234-235 | The result is the last day on or before the given day that is not a Sunday. |
| `Sessions.Candidate` | src/backend/agent/agent.py:222-235 | Before the today-check, a session's day is before the due day and is not a Sunday. |
| `Sessions.SessionDates` | src/backend/agent/agent.py:216-238 | There are at most `max(0, n)` session dates. Each satisfies `today <= d < due` and none is a Sunday. |
| `Sessions.OffsetsNonIncreasing` | src/backend/agent/agent.py:222-224 | With the spacing `max(1, days_back // n)`, a later session index never gets a larger offset, and no offset is negative. |
| `Sessions.CandidatesNonIncreasing` | src/backend/agent/agent.py:220-235 | A later session index never gets a later day, even after the Sunday moves and the pull-back before the due day. |
| `Sessions.KeptDatesArePrefix` | src/backend/agent/agent.py:237-238 | On a non-increasing list, the dates kept by the today-check are a prefix of it. |
| `Sessions.SessionDatesOrder` | src/backend/agent/agent.py:219-238 | The session dates are the first candidates and are non-increasing, and a candidate is kept iff it is not before today. Part 1 is never earlier than part 2, and only trailing sessions are dropped. |
| `Sessions.DueNotAfterTodayGivesNothing` | src/backend/agent/agent.py:217-238 | A due day of today or earlier gives no session. |
| `Sessions.AllSessionsPlacedWhenDueTwoDaysOut` | src/backend/agent/agent.py:220-238 | If the due day is two or more days ahead, each of the n requested sessions gets a date. |
| `Sessions.ThreeSessionsExample` | src/backend/agent/agent.py:219-238 | Three sessions planned on day 0 for day 10 land on days 4, 2 and 1, in that order. |
| `Sessions.PlaceSession` | src/backend/agent/agent.py:223-235 | One pass of the loop body, with its two Sunday loops, computes the candidate day. |
| `Sessions.PlanSessionDates` | src/backend/agent/agent.py:219-238 | The loop that appends the dates on or after today computes the session dates, with their bounds. |
| `Days.IsoDateRoundTrip` | src/backend/agent/agent.py:266 | Every date from 0001-01-01 to 9999-12-31 has a ten-character ISO text that reads back as the same day. |
| `Days.DaysUntilSunday` | src/backend/services/canvas.py:231 | `(6 - weekday) % 7` lies in 0..6, and the weekday plus it is Sunday modulo 7. |
| `Days.EndOfWeekIsFirstSunday` | src/backend/services/canvas.py:385-388 | The window's last day is a Sunday, and no earlier day from today on is a Sunday. |
| `Tasks.DurationLabelRoundTrip` | src/backend/agent/agent.py:241-248 | A non-negative duration reads back from its label. |
| `Tasks.ContentFrame` | src/backend/agent/agent.py:241-264 | Every content line starts with the duration label and " - ", and ends with " - " and the course name. |
| `Tasks.UnlabelledPartsDiffer` | src/backend/agent/agent.py:254-261 | For a multi-session estimate without labels, two different parts never get the same content line. |
| `Tasks.PriorityRisesTowardDue` | src/backend/agent/agent.py:272 | A later session day never has a lower priority than an earlier one: once a session is urgent (3), every later one is. |
| `Tasks.CourseLabel` | src/backend/agent/agent.py:273 | The course label is the first 20 characters, lower-cased, with spaces turned into "-". It contains no space and no upper-case letter. |
| `Tasks.CourseLabelIdempotent` | src/backend/agent/agent.py:273 | Deriving the label from a label gives the same label. |
| `Tasks.DueStringRoundTrip` | src/backend/agent/agent.py:266 | The due string, the ISO date, a space and the slot label, reads back as its day and hour. |
| `Tasks.ScheduleTasks` | src/backend/agent/agent.py:198-278 | A missing or unreadable due date gives no tasks. Otherwise there is one task per session date, in order, built from that date, and at most `max(0, sessions)` tasks. |
| `Tasks.NoSplitAtMostOneTask` | src/backend/agent/agent.py:210-211 | Without a split there is at most one task. |
| `Tasks.SessionTaskFacts` | src/backend/agent/agent.py:266-274 | A session task's due string reads back as its day and chosen hour. Its priority is 3 iff the day is within two days of the due day. Its labels are "canvas" and the course label. |
| `Tasks.ScheduledTasksReadBack` | src/backend/agent/agent.py:240-278 | Each task's due string reads back as a day in `[today, due)` that is not a Sunday, and as the hour chosen for that day. Its priority and labels follow. |
| `Tasks.OneSessionExample` | src/backend/agent/agent.py:210-278 | An unsplit assignment due ten days after today gets exactly one task, labelled "canvas" and its course. |
| `Tasks.UnlabelledPartsAreNumbered` | src/backend/agent/agent.py:254-261 | For a multi-session estimate without labels, task i is named "(Part i+1/n)". |
| `WeeklySync.Unsubmitted` | src/backend/agent/agent.py:320-323 | The assignments the loop processes are exactly the unsubmitted ones. |
| `WeeklySync.SyncWithAppend` | src/backend/agent/agent.py:316-337 | The loop over a concatenation is the two loops' tasks, in order, and fails iff either part fails. |
| `WeeklySync.SyncWithFails` | src/backend/agent/agent.py:316-337 | The loop fails iff the scheduler raises for some assignment that is not submitted. |
| `WeeklySync.SyncWithProvenance` | src/backend/agent/agent.py:316-337 | Every task comes from the schedule of an assignment that is not submitted. |
| `WeeklySync.SyncWithComplete` | src/backend/agent/agent.py:316-337 | When the loop completes, every task scheduled for an unsubmitted assignment is in its result. |
| `WeeklySync.SubmittedAreSkipped` | src/backend/agent/agent.py:320-323 | Dropping the submitted assignments first gives the same task list. |
| `WeeklySync.SubmittedAddsNothing` | src/backend/agent/agent.py:320-323 | A submitted assignment anywhere in the list adds no task and moves no other. |
| `WeeklySync.SyncWithWithinBound` | src/backend/agent/agent.py:316-337 | The loop produces at most the per-assignment bounds of the unsubmitted assignments, added up. |
| `WeeklySync.WeeklyTasksWithinBudget` | src/backend/agent/agent.py:309-337 | The week's task count is at most the sum of the unsubmitted assignments' session counts. |
| `WeeklySync.WeeklyTaskProvenance` | src/backend/agent/agent.py:309-337 | Every task of the week is scheduled for one unsubmitted assignment, on the day the clock read for it, against the busy map built once from the week's events. |
| `WeeklySync.SyncWithSingle` | src/backend/agent/agent.py:316-337 | A loop over one unsubmitted assignment yields exactly what its scheduling gave, or fails with it. |
| `WeeklySync.OneAssignmentWeekExample` | src/backend/agent/agent.py:309-337 | A week of one unsubmitted assignment, whose name was shortened, yields that assignment's single task. |
| `WeeklySync.WeeklyTasksComplete` | src/backend/agent/agent.py:309-337 | Conversely, every task scheduled for an unsubmitted assignment is among the week's tasks. |
| `WeeklySync.WeeklyFailsWhenShortenerRaises` | src/backend/agent/agent.py:195-196 | The run ends without tasks iff the name shortener raised for an assignment that is not submitted, even one without a due date. |
| `Pagination.PaginateStopsAtFirstShortPage` | src/backend/services/canvas.py:41-52 | The fetch stops at the first page that is empty, shorter than `per_page` or raising. A raise fails the call. Otherwise the result is all items of the pages up to that one, in request order. |
| `Pagination.FirstStop` | src/backend/services/canvas.py:43-51 | Some page always stops the loop, at the latest the first page past the served ones. |
| `Pagination.FetchAll` | src/backend/services/canvas.py:41-52 | The loop returns the joined pages up to the first non-full page, with that page's number, or fails at the first raising page. All earlier pages are full. |
| `Courses.FirstWith` | src/backend/services/canvas.py:109 | The result is the position of the first course with an id. It equals the length iff no course has that id. |
| `Courses.UnnamedCoursesKeepDistinctNames` | src/backend/services/canvas.py:130 | Two courses without a name and with different ids get different fallback names "Course {id}". |
| `Courses.Build` | src/backend/services/canvas.py:109 | The dict comprehension has distinct keys, which are exactly the ids seen. Each entry is stored under its own id. |
| `Courses.BuildKeepsLast` | src/backend/services/canvas.py:109 | The entry for an id is the last course fetched with it. |
| `Courses.BuildKeepsFirstOrder` | src/backend/services/canvas.py:109 | Keys are in the order their ids first appeared. |
| `Courses.FirstWithExtend` | src/backend/services/canvas.py:109 | Appending a course does not move an id's first position. A new id's first position is the end. |
| `Courses.Dedupe` | src/backend/services/canvas.py:109 | There is one course per distinct id, with the same id set. The last record seen for an id is kept, and ids are in order of first appearance. |
| `Courses.GatheredIds` | src/backend/services/canvas.py:95-107 | An id is gathered iff some enrollment state whose fetch completed served it. A failing state contributes nothing. |
| `Courses.AllCoursesIds` | src/backend/services/canvas.py:92-109 | The course list holds an id iff some of the four enrollment states served it without failing. |
| `Sorting.SortBySortsAndPermutes` | src/backend/services/canvas.py:174 | `list.sort(key=...)` orders by key and keeps every element as often as before. |
| `Sorting.SortByStable` | src/backend/services/canvas.py:174 | Elements with equal keys keep their input order. |
| `Sorting.InsertStable` | src/backend/services/canvas.py:174 | Inserting into a sorted list puts the element first among its equals and keeps the rest in order. |
| `Sorting.InsertSorted` | src/backend/services/canvas.py:174 | Inserting into a sorted list keeps it sorted. |
| `Lists.FilterMembers` | src/backend/services/canvas.py:405-408 | A conditional comprehension keeps exactly the input elements that meet the condition. |
| `Lists.FilterAppend` | src/backend/services/canvas.py:405-408 | Filtering keeps input order: the kept part of a concatenation is the kept parts, concatenated. |
| `Lists.FilterCounts` | src/backend/services/canvas.py:405-408 | A kept element occurs as often as in the input. |
| `Assignments.WrittenDate` | src/backend/services/canvas.py:152 | `.date()` of a timestamp is the day holding its local time in the offset it was written with. |
| `Assignments.UpcomingOnly` | src/backend/services/canvas.py:145-158 | With `only_upcoming`, the kept assignments are exactly those whose due is present, reads, and is dated today (UTC) or later. Without it, all are kept. |
| `Assignments.MakeRecords` | src/backend/services/canvas.py:159-166 | There is one record per kept assignment, in order, carrying that assignment and the course's id. Every kept assignment has its record. |
| `Assignments.CollectFails` | src/backend/services/canvas.py:128-143 | The list fails iff some course's assignment fetch raises. That exception is not caught. |
| `Assignments.CollectProvenance` | src/backend/services/canvas.py:128-166 | Every record is built from a kept assignment of one course whose fetch completed, and carries that course's id and name. |
| `Assignments.CollectComplete` | src/backend/services/canvas.py:128-166 | Conversely, every kept assignment of every course appears as that course's record. |
| `Assignments.AssignmentKeyOrder` | src/backend/services/canvas.py:168-173 | Under the `(rank, due)` key, dated records come first, ordered by instant. Missing or unreadable dues all compare equal, last. |
| `Assignments.SortedDatedFirst` | src/backend/services/canvas.py:168-174 | In a key-sorted list, no dated record follows an undated one, and dated records ascend. |
| `Assignments.AllAssignmentsSorted` | src/backend/services/canvas.py:168-174 | The result is the collected records, sorted by key, as a permutation, with equal keys in collection order. |
| `Assignments.AllAssignmentsComplete` | src/backend/services/canvas.py:128-174 | When the call succeeds, every course was fetched completely, and every fetched assignment that passes the `only_upcoming` test is listed as its course's record. |
| `Assignments.SelectedCourseRecords` | src/backend/services/canvas.py:119-166 | With a truthy `course_id`, the lookup succeeded and every record carries that id and the looked-up name, or "Course {id}". |
| `Assignments.UpcomingRecordsAreDue` | src/backend/services/canvas.py:145-174 | With `only_upcoming`, every listed record has a readable due dated today (UTC) or later. |
| `Assignments.WindowOnly` | src/backend/services/canvas.py:352-362 | The kept assignments are exactly those with a readable due satisfying `start <= due < end`. |
| `Assignments.WindowRecordsInWindow` | src/backend/services/canvas.py:344-371 | Every record of the window is due inside it, and the list ascends by due instant. |
| `Assignments.WindowRecordsComplete` | src/backend/services/canvas.py:344-371 | When the call succeeds, every fetched assignment due inside the window is listed as its course's record. |
| `Assignments.NewItems` | src/backend/services/canvas.py:405-416 | The new items are exactly the fetched records whose `(courseId, assignmentId)` is not stored, sorted by due, with a missing due counted as 9999-12-31T23:59:59. It requires every fetched record to have a readable due: the sort's `_iso_to_dt` would raise on one that cannot be read, and the window's filter (lines 352-359) drops those first. |
| `Assignments.NewItemsCountsAndOrder` | src/backend/services/canvas.py:405-416 | Each new record occurs as often as it was fetched, and records with equal due keep their fetch order. |
| `Assignments.NothingStoredAllNew` | src/backend/services/canvas.py:395-408 | With nothing stored, every fetched record is new. |
| `Week.LocalDay` | src/backend/services/canvas.py:383 | The local day holds the instant shifted by the offset. |
| `Week.WeekEnd` | src/backend/services/canvas.py:385-389 | The window end is 23:59:00 local on a Sunday, within the seven days from today. |
| `Week.WeekWindowBounds` | src/backend/services/canvas.py:385-389 | The end falls on the first Sunday from today and is less than a week after now. It is before now only within the last minute of a Sunday. |
| `Week.CheckNewWeekly` | src/backend/services/canvas.py:375-417 | The check fails iff the window fetch fails. Otherwise its records are exactly the window's records whose key is not stored. |

## Left out

- The estimator and name-shortening model calls (`dspy.Predict`). Their outputs are inputs: the estimator's answer or its exception, and the shortened name or the shortener's exception.
- The clock (`datetime.now`). Each assignment carries the local day read when it was scheduled, so a run that crosses midnight is covered, but the time of day is not modelled.
- Float conversion of `estimated_hours`. It is a `real` chosen by the input and only feeds printing.
- `int(...)` and `float(...)` conversions of estimator fields. They are three-way inputs (blank, value, unreadable).
- `str(...)` of a non-string estimator field is taken to be the given text.
- ISO-8601 parsing, `zoneinfo` conversion and `datetime` arithmetic. Events, due dates and instants arrive already converted, or as explicit failures.
- Lower-casing. Only ASCII letters are mapped, not the rest of Unicode.
- Week.WeekEnd: uses one fixed UTC offset for the whole week, so a daylight-saving change inside the week is not modelled.
- Fractional seconds. `datetime.max` is taken to the second; its 0.999999 s only matters against dues in the last second of year 9999. The window start `now_utc` (src/backend/services/canvas.py:384 and :400) also carries microseconds, while the model's `nowUtc` is a whole second: a due earlier in the current second, such as 12:00:00 when now is 12:00:00.5, is inside the model's window but outside the source's.
- Naive timestamps (no offset). Comparing them with aware ones raises in the source; the model has only aware instants.
- The `KeyError` when an event has no `start` object, or a course has no `id`. A missing `end` is caught and skips the event, which is modelled.
- A JSON `null` course name. The model's `None` name means the key is absent.
- Network and OAuth clients: `_request`, the Google Calendar and Todoist services, and `sync_to_todoist`. Responses are input sequences, and the task list is the result.
- Printing, in `run_weekly_sync` and elsewhere.
- `get_next_week_data` is not part of this model. The week's assignments and events are inputs.
- The SQLite persistence: `persist_to_db`, `bulk_upsert_from_payload` and `list_assignments_due_between`. Stored keys are an input set.
- The cache path of `get_remaining_weekly_assignments` and `get_assignments_next_week`, and the sort of `_get_from_db_window`. These are database readers outside the modelled core.
- The `include_submissions` flags, which only attach a `has_submitted` field and the raw submission.
- The HTML description extraction (`_extract_description`).
- The request parameters (`bucket`, `include[]`). They change only what the server returns, which is an input.
- Tasks.DurationLabelRoundTrip: stated for non-negative durations only, because a negative duration prints only its minutes modulo 60, so its label does not determine it.
- Pagination: the stop conditions follow the source, but pages are a finite list followed by empty pages. A server returning full pages forever is not modelled.
