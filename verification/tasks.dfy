/**
 * Task records for one assignment (`TaskScheduler.schedule_assignment_tasks`):
 * the session dates, and for each date the duration label, the content line,
 * the Todoist due string, the priority and the labels.
 */
module Tasks {

  import opened Wrappers
  import opened Text
  import opened Days
  import opened Busy
  import opened Slots
  import opened Sessions
  import opened Estimate

  /** `due_at` of an assignment: absent or empty, unreadable, or read and converted to a local day. */
  datatype Due = NoDue | BadDue | DueOn(day: int)

  /** The fields of an assignment record the scheduler reads. */
  datatype Assignment = Assignment(
    name: Option<string>,
    courseName: string,
    due: Due,
    htmlUrl: Option<string>,
    submitted: bool)

  /** The keyword arguments handed to the Todoist client for one session. */
  datatype Task = Task(
    content: string,
    description: string,
    dueString: string,
    priority: int,
    labels: seq<string>)

  /** `"{h}h {m}min"`, `"{h}h"` or `"{m}min"` for a session length in minutes. */
  function DurationLabel(minutes: int): string {
    var hours := minutes / 60;
    var mins := minutes % 60;
    if hours > 0 && mins > 0 then NatToString(hours) + "h " + NatToString(mins) + "min"
    else if hours > 0 then NatToString(hours) + "h"
    else NatToString(mins) + "min"
  }

  predicate EndsWith(text: string, tail: string) {
    |text| >= |tail| && text[|text| - |tail|..] == tail
  }

  function NatAsInt(r: Option<nat>): Option<int> {
    match r
    case None => None
    case Some(n) => Some(n)
  }

  function HoursAsMinutes(r: Option<nat>): Option<int> {
    match r
    case None => None
    case Some(h) => Some(60 * h)
  }

  /** Reads `"{h}h {m}"` (the part before `min`) when an `h` was found at position p. */
  function ParseHoursAndMinutes(body: string, p: nat): Option<int> {
    if p + 2 <= |body| && body[p..p + 2] == "h " then
      match (ParseNat(body[..p]), ParseNat(body[p + 2..]))
      case (Some(h), Some(m)) => Some(60 * h + m)
      case _ => None
    else None
  }

  /** Reads the text before a trailing `min`: either `"{h}h {m}"` or `"{m}"`. */
  function ParseMinutesLabel(body: string): Option<int> {
    match FirstIndexOf(body, 'h')
    case None => NatAsInt(ParseNat(body))
    case Some(p) => ParseHoursAndMinutes(body, p)
  }

  /** Reads a duration label back into minutes. */
  function ParseDurationLabel(text: string): Option<int> {
    if EndsWith(text, "min") then ParseMinutesLabel(text[..|text| - 3])
    else if EndsWith(text, "h") then HoursAsMinutes(ParseNat(text[..|text| - 1]))
    else None
  }

  lemma DigitsHaveNoLetters(n: nat)
    ensures 'h' !in NatToString(n) && 'n' !in NatToString(n)
  {
  }

  lemma HoursAndMinutesBody(hs: string, ms: string, h: nat, m: nat)
    requires ParseNat(hs) == Some(h) && ParseNat(ms) == Some(m)
    ensures ParseHoursAndMinutes(hs + ("h " + ms), |hs|) == Some(60 * h + m)
  {
    var body := hs + ("h " + ms);
    assert body[..|hs|] == hs;
    assert body[|hs|..|hs| + 2] == "h ";
    assert body[|hs| + 2..] == ms;
  }

  lemma MinutesLabelBody(hs: string, ms: string, h: nat, m: nat)
    requires ParseNat(hs) == Some(h) && ParseNat(ms) == Some(m) && 'h' !in hs
    ensures ParseMinutesLabel(hs + ("h " + ms)) == Some(60 * h + m)
  {
    FirstIndexAfter(hs, "h " + ms, 'h');
    HoursAndMinutesBody(hs, ms, h, m);
  }

  lemma HoursAndMinutesText(hs: string, ms: string, h: nat, m: nat)
    requires ParseNat(hs) == Some(h) && ParseNat(ms) == Some(m) && 'h' !in hs
    ensures ParseDurationLabel(hs + "h " + ms + "min") == Some(60 * h + m)
  {
    var text := hs + "h " + ms + "min";
    var body := hs + ("h " + ms);
    assert text == body + "min";
    assert text[|text| - 3..] == "min";
    assert text[..|text| - 3] == body;
    MinutesLabelBody(hs, ms, h, m);
  }

  lemma HoursAndMinutesRoundTrip(h: nat, m: nat)
    ensures ParseDurationLabel(NatToString(h) + "h " + NatToString(m) + "min") == Some(60 * h + m)
  {
    DigitsHaveNoLetters(h);
    ParseNatToString(h);
    ParseNatToString(m);
    HoursAndMinutesText(NatToString(h), NatToString(m), h, m);
  }

  /** A text whose last character differs from the tail's does not end with it. */
  lemma LastCharRulesOut(text: string, tail: string)
    requires |text| > 0 && |tail| > 0 && text[|text| - 1] != tail[|tail| - 1]
    ensures !EndsWith(text, tail)
  {
    if |text| >= |tail| {
      assert text[|text| - |tail|..][|tail| - 1] == text[|text| - 1];
    }
  }

  lemma WholeHoursRoundTrip(h: nat)
    requires h > 0
    ensures ParseDurationLabel(NatToString(h) + "h") == Some(60 * h)
  {
    var text := NatToString(h) + "h";
    assert text[|text| - 1] == 'h';
    LastCharRulesOut(text, "min");
    assert EndsWith(text, "h") && text[..|text| - 1] == NatToString(h);
    ParseNatToString(h);
  }

  lemma MinutesOnlyRoundTrip(m: nat)
    ensures ParseDurationLabel(NatToString(m) + "min") == Some(m)
  {
    var text := NatToString(m) + "min";
    assert EndsWith(text, "min") && text[..|text| - 3] == NatToString(m);
    DigitsHaveNoLetters(m);
    assert FirstIndexOf(NatToString(m), 'h') == None;
    ParseNatToString(m);
  }

  lemma HoursAndMinutesLabel(minutes: int)
    requires minutes / 60 > 0 && minutes % 60 > 0
    ensures ParseDurationLabel(DurationLabel(minutes)) == Some(minutes)
  {
    HoursAndMinutesRoundTrip(minutes / 60, minutes % 60);
  }

  lemma WholeHoursLabel(minutes: int)
    requires minutes / 60 > 0 && minutes % 60 == 0
    ensures ParseDurationLabel(DurationLabel(minutes)) == Some(minutes)
  {
    WholeHoursRoundTrip(minutes / 60);
  }

  lemma MinutesOnlyLabel(minutes: int)
    requires minutes >= 0 && minutes / 60 <= 0
    ensures ParseDurationLabel(DurationLabel(minutes)) == Some(minutes)
  {
    MinutesOnlyRoundTrip(minutes % 60);
  }

  /** A non-negative session length can be read back from its label. */
  lemma DurationLabelRoundTrip(minutes: int)
    requires minutes >= 0
    ensures ParseDurationLabel(DurationLabel(minutes)) == Some(minutes)
  {
    if minutes / 60 > 0 && minutes % 60 > 0 {
      HoursAndMinutesLabel(minutes);
    } else if minutes / 60 > 0 {
      WholeHoursLabel(minutes);
    } else {
      MinutesOnlyLabel(minutes);
    }
  }

  /** The session count actually used: `num_sessions if should_split else 1`. */
  function SessionCount(analysis: Analysis): int {
    if analysis.shouldSplit then analysis.numSessions else 1
  }

  /** The part of a multi-session content line that names the session. */
  function SessionSuffix(parts: seq<string>, idx: nat, n: nat): string {
    if idx < |parts| && parts[idx] != "" then " - " + parts[idx]
    else " (Part " + NatToString(idx + 1) + "/" + NatToString(n) + ")"
  }

  /** The content line of session idx of n. */
  function Content(a: Assignment, analysis: Analysis, shortName: string, n: int, idx: nat): string {
    if n > 1 then
      DurationLabel(analysis.sessionDuration) + " - " + shortName
        + SessionSuffix(analysis.sessionParts, idx, n) + " - " + a.courseName
    else DurationLabel(analysis.sessionDuration) + " - " + analysis.taskName + " - " + a.courseName
  }

  /** Every content line opens with the session length and closes with the course name. */
  lemma ContentFrame(a: Assignment, analysis: Analysis, shortName: string, n: int, idx: nat)
    ensures var text := Content(a, analysis, shortName, n, idx);
            var head := DurationLabel(analysis.sessionDuration) + " - ";
            var tail := " - " + a.courseName;
            && |text| >= |head| + |tail|
            && text[..|head|] == head
            && text[|text| - |tail|..] == tail
  {
    var text := Content(a, analysis, shortName, n, idx);
    var head := DurationLabel(analysis.sessionDuration) + " - ";
    var tail := " - " + a.courseName;
    var middle := if n > 1 then shortName + SessionSuffix(analysis.sessionParts, idx, n) else analysis.taskName;
    assert text == head + middle + tail;
    assert text[..|head|] == head;
    assert text[|text| - |tail|..] == tail;
  }

  lemma Regroup(h: string, p: string, x: string, r: string, t: string)
    ensures h + (p + x + r) + t == (h + p) + (x + (r + t))
  {
  }

  lemma Assoc(x: string, y: string, z: string)
    ensures x + y + z == x + (y + z)
  {
  }

  /** The content line of an unlabelled part, grouped so that its part number can be read off. */
  lemma UnlabelledContent(a: Assignment, analysis: Analysis, shortName: string, n: nat, idx: nat)
    requires n > 1 && analysis.sessionParts == []
    ensures Content(a, analysis, shortName, n, idx)
            == (DurationLabel(analysis.sessionDuration) + " - " + shortName + " (Part ")
               + (NatToString(idx + 1) + (("/" + NatToString(n) + ")") + (" - " + a.courseName)))
  {
    var head := DurationLabel(analysis.sessionDuration) + " - " + shortName;
    var suffix := SessionSuffix(analysis.sessionParts, idx, n);
    var number := NatToString(idx + 1);
    var rest := "/" + NatToString(n) + ")";
    assert Content(a, analysis, shortName, n, idx) == head + suffix + " - " + a.courseName;
    Assoc(head + suffix, " - ", a.courseName);
    assert suffix == " (Part " + number + rest;
    Regroup(head, " (Part ", number, rest, " - " + a.courseName);
  }

  /** Without session labels, two different parts of the same assignment never share a content line. */
  lemma UnlabelledPartsDiffer(a: Assignment, analysis: Analysis, shortName: string, n: nat, i: nat, j: nat)
    requires n > 1 && analysis.sessionParts == [] && i != j
    ensures Content(a, analysis, shortName, n, i) != Content(a, analysis, shortName, n, j)
  {
    var head := DurationLabel(analysis.sessionDuration) + " - " + shortName + " (Part ";
    var rest := ("/" + NatToString(n) + ")") + (" - " + a.courseName);
    UnlabelledContent(a, analysis, shortName, n, i);
    UnlabelledContent(a, analysis, shortName, n, j);
    if Content(a, analysis, shortName, n, i) == Content(a, analysis, shortName, n, j) {
      var ci, cj := NatToString(i + 1) + rest, NatToString(j + 1) + rest;
      assert ci == (head + ci)[|head|..];
      assert cj == (head + cj)[|head|..];
      NumberBeforeSeparator(i + 1, j + 1, rest, rest);
    }
  }

  /** `f"Canvas Assignment\n{assignment.get('html_url', '')}"`; a null URL prints as `None`. */
  function Description(htmlUrl: Option<string>): string {
    "Canvas Assignment\n" + htmlUrl.GetOr("None")
  }

  /** `f"{task_date.date().isoformat()} {suggested_time}"`. */
  function DueString(day: int, time: string): string {
    IsoDate(day) + " " + time
  }

  /** Reads a due string back into its day and hour. */
  function ParseDueString(text: string): Option<(int, int)> {
    if |text| < 11 || text[10] != ' ' then None
    else
      match (ParseIsoDate(text[..10]), ParseClockLabel(text[11..]))
      case (Some(day), Some(hour)) => Some((day, hour))
      case _ => None
  }

  /** The due string carries its day and hour: reading it back gives both. */
  lemma DueStringRoundTrip(day: int, hour: int)
    requires InDateRange(day) && 0 <= hour < 24
    ensures ParseDueString(DueString(day, ClockLabel(hour))) == Some((day, hour))
  {
    var text := DueString(day, ClockLabel(hour));
    IsoDateRoundTrip(day);
    assert text[..10] == IsoDate(day);
    assert text[11..] == ClockLabel(hour);
    ClockLabelRoundTrip(hour);
  }

  /** `3 if due - session <= 2 days else 2`. */
  function Priority(due: int, day: int): int {
    if due - day <= 2 then 3 else 2
  }

  /** A later session of the same assignment is never less urgent than an earlier one. */
  lemma PriorityRisesTowardDue(due: int, early: int, late: int)
    requires early <= late
    ensures Priority(due, early) <= Priority(due, late)
    ensures Priority(due, late) == 2 ==> Priority(due, early) == 2
  {
  }

  /** `course_name[:20].lower().replace(" ", "-")`. */
  function CourseLabel(course: string): (tag: string)
    ensures |tag| == Min(20, |course|)
    ensures forall i :: 0 <= i < |tag| ==> tag[i] == (if course[i] == ' ' then '-' else LowerChar(course[i]))
    ensures forall i :: 0 <= i < |tag| ==> tag[i] != ' ' && !IsUpper(tag[i])
  {
    var head := Lower(course[..Min(20, |course|)]);
    seq(|head|, i requires 0 <= i < |head| => if head[i] == ' ' then '-' else head[i])
  }

  /** A course label is its own label: applying the rule again changes nothing. */
  lemma CourseLabelIdempotent(course: string)
    ensures CourseLabel(CourseLabel(course)) == CourseLabel(course)
  {
  }

  function Labels(course: string): seq<string> {
    ["canvas", CourseLabel(course)]
  }

  /** The task for session idx, placed on `day`. */
  function SessionTask(a: Assignment, analysis: Analysis, shortName: string, busy: BusyMap,
                       due: int, n: int, idx: nat, day: int): Task
  {
    Task(Content(a, analysis, shortName, n, idx),
         Description(a.htmlUrl),
         DueString(day, ClockLabel(SuggestedHour(busy, day))),
         Priority(due, day),
         Labels(a.courseName))
  }

  /**
   * `schedule_assignment_tasks`: no due date, or one that does not parse, gives
   * no tasks; otherwise one task per session date, in session order.
   */
  function ScheduleTasks(a: Assignment, analysis: Analysis, shortName: string, busy: BusyMap, today: int)
    : (tasks: seq<Task>)
    ensures !a.due.DueOn? ==> tasks == []
    ensures a.due.DueOn? ==>
              var dates := SessionDates(today, a.due.day, SessionCount(analysis));
              && |tasks| == |dates|
              && forall i :: 0 <= i < |tasks| ==>
                   tasks[i] == SessionTask(a, analysis, shortName, busy, a.due.day, SessionCount(analysis), i, dates[i])
    ensures |tasks| <= Max(0, SessionCount(analysis))
  {
    match a.due
    case DueOn(due) =>
      var n := SessionCount(analysis);
      var dates := SessionDates(today, due, n);
      assert |dates| <= Max(0, n);
      var tasks := seq(|dates|, i requires 0 <= i < |dates| => SessionTask(a, analysis, shortName, busy, due, n, i, dates[i]));
      assert |tasks| == |dates|;
      tasks
    case _ => []
  }

  /** Without a split there is at most one task, whatever session count the estimate gave. */
  lemma NoSplitAtMostOneTask(a: Assignment, analysis: Analysis, shortName: string, busy: BusyMap, today: int)
    requires !analysis.shouldSplit
    ensures |ScheduleTasks(a, analysis, shortName, busy, today)| <= 1
  {
    assert SessionCount(analysis) == 1;
  }

  /** What a session's task says about its day, given the day lies before the due day. */
  lemma SessionTaskFacts(a: Assignment, analysis: Analysis, shortName: string, busy: BusyMap,
                         due: int, n: int, idx: nat, day: int)
    requires InDateRange(day) && day < due
    ensures var t := SessionTask(a, analysis, shortName, busy, due, n, idx, day);
            && ParseDueString(t.dueString) == Some((day, SuggestedHour(busy, day)))
            && (t.priority == 3 <==> day >= due - 2)
            && t.labels == ["canvas", CourseLabel(a.courseName)]
  {
    DueStringRoundTrip(day, SuggestedHour(busy, day));
  }

  /**
   * Every task's due string reads back as its session's day, a day on or after
   * today, before the due day and not a Sunday, and the hour the slot choice
   * gave that day; the priority is urgent exactly for the last two days before
   * the due day, and the labels are the fixed marker and the course tag.
   */
  lemma ScheduledTasksReadBack(a: Assignment, analysis: Analysis, shortName: string, busy: BusyMap,
                               today: int, i: nat)
    requires a.due.DueOn? && FirstDay <= today && a.due.day <= LastDay + 1
    requires i < |ScheduleTasks(a, analysis, shortName, busy, today)|
    ensures var t := ScheduleTasks(a, analysis, shortName, busy, today)[i];
            exists day :: && ParseDueString(t.dueString) == Some((day, SuggestedHour(busy, day)))
                          && today <= day < a.due.day && !IsSunday(day)
                          && (t.priority == 3 <==> day >= a.due.day - 2)
                          && t.labels == ["canvas", CourseLabel(a.courseName)]
  {
    var n := SessionCount(analysis);
    var dates := SessionDates(today, a.due.day, n);
    var day := dates[i];
    assert day in dates;
    SessionTaskFacts(a, analysis, shortName, busy, a.due.day, n, i, day);
  }

  /** A one-session assignment due ten days out gets exactly one task, tagged with its course. */
  lemma OneSessionExample(analysis: Analysis, busy: BusyMap)
    requires !analysis.shouldSplit
    ensures var a := Assignment(None, "Math", DueOn(10), None, false);
            var ts := ScheduleTasks(a, analysis, "Essay", busy, 0);
            |ts| == 1 && ts[0].labels == ["canvas", CourseLabel("Math")]
  {
    var a := Assignment(None, "Math", DueOn(10), None, false);
    AllSessionsPlacedWhenDueTwoDaysOut(0, 10, 1);
    ScheduledTasksReadBack(a, analysis, "Essay", busy, 0, 0);
  }

  /** With a multi-session estimate and no session labels, every content line numbers its part. */
  lemma UnlabelledPartsAreNumbered(a: Assignment, analysis: Analysis, shortName: string, busy: BusyMap,
                                   today: int, i: nat)
    requires a.due.DueOn? && SessionCount(analysis) > 1 && analysis.sessionParts == []
    requires i < |ScheduleTasks(a, analysis, shortName, busy, today)|
    ensures ScheduleTasks(a, analysis, shortName, busy, today)[i].content
            == DurationLabel(analysis.sessionDuration) + " - " + shortName
               + (" (Part " + NatToString(i + 1) + "/" + NatToString(SessionCount(analysis)) + ")")
               + " - " + a.courseName
  {
    var n := SessionCount(analysis);
    var dates := SessionDates(today, a.due.day, n);
    var t := ScheduleTasks(a, analysis, shortName, busy, today)[i];
    assert t == SessionTask(a, analysis, shortName, busy, a.due.day, n, i, dates[i]);
    assert t.content == Content(a, analysis, shortName, n, i);
    assert SessionSuffix(analysis.sessionParts, i, n)
           == " (Part " + NatToString(i + 1) + "/" + NatToString(n) + ")";
  }
}
