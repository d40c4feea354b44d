/**
 * The assignment lists of `CanvasService`: the records built per course, the
 * `only_upcoming` filter and `(rank, due)` sort of `get_all_assignments`, the
 * `[start, end)` window and due-order sort of `_fetch_and_filter_window`, and
 * the new-items diff of `check_new_weekly_assignments`. ISO-8601 parsing is
 * outside the model: a due timestamp arrives as its UTC instant in seconds and
 * the UTC offset it was written with, or as missing or unreadable.
 */
module Assignments {

  import opened Wrappers
  import opened Lists
  import opened Sorting
  import opened Pagination
  import opened Courses

  const SecondsPerDay := 86400

  /** `datetime.max` in UTC, to the second: 9999-12-31T23:59:59Z. */
  const MaxInstant := 253402300799

  /** `due_at`: missing, null or empty; present but not ISO-8601; or an instant with its written offset. */
  datatype Due = NoDue | BadDue | DueAt(utc: int, offset: int)

  /** The fields of a Canvas assignment the service reads. */
  datatype CanvasAssignment = CanvasAssignment(id: int, due: Due, htmlUrl: Option<string>)

  /** `_make_payload_record`, without the description fields (HTML extraction is not modelled). */
  datatype Record = Record(
    courseId: int,
    courseName: string,
    assignmentId: int,
    due: Due,
    htmlUrl: Option<string>,
    assignment: CanvasAssignment)

  /** The calendar day of a due timestamp as written, `dt.date()` (floor division by a day). */
  function WrittenDate(due: Due): (day: int)
    requires due.DueAt?
    ensures day * SecondsPerDay <= due.utc + due.offset < (day + 1) * SecondsPerDay
  {
    (due.utc + due.offset) / SecondsPerDay
  }

  /** Kept under `only_upcoming`: a due timestamp that reads, dated today (UTC) or later. */
  predicate IsUpcoming(a: CanvasAssignment, todayUtc: int) {
    a.due.DueAt? && WrittenDate(a.due) >= todayUtc
  }

  /** The `filtered` list of `get_all_assignments`. */
  function UpcomingOnly(items: seq<CanvasAssignment>, onlyUpcoming: bool, todayUtc: int)
    : (kept: seq<CanvasAssignment>)
    ensures !onlyUpcoming ==> kept == items
    ensures onlyUpcoming ==> forall a :: a in kept <==> a in items && IsUpcoming(a, todayUtc)
  {
    if onlyUpcoming then
      var kept := Filter(items, a => IsUpcoming(a, todayUtc));
      assert forall a :: a in kept <==> a in items && IsUpcoming(a, todayUtc) by {
        forall a
          ensures a in kept <==> a in items && IsUpcoming(a, todayUtc)
        {
          FilterMembers(items, a => IsUpcoming(a, todayUtc), a);
        }
      }
      kept
    else items
  }

  function MakeRecord(c: Course, a: CanvasAssignment): Record {
    Record(c.id, CourseName(c), a.id, a.due, a.htmlUrl, a)
  }

  /** One record per kept assignment, in order, each labelled with the course it was fetched for. */
  function MakeRecords(c: Course, items: seq<CanvasAssignment>): (rs: seq<Record>)
    ensures |rs| == |items|
    ensures forall i :: 0 <= i < |rs| ==> rs[i].assignment == items[i] && rs[i].courseId == c.id
    ensures forall a :: a in items ==> MakeRecord(c, a) in rs
  {
    seq(|items|, i requires 0 <= i < |items| => MakeRecord(c, items[i]))
  }

  /**
   * The per-course loop: each course's assignments are fetched page by page
   * and the kept ones become records, in course order. A fetch that raises is
   * not caught, so it fails the whole list.
   */
  function Collect(courses: seq<Course>, fetch: int -> seq<Response<CanvasAssignment>>,
                   keep: seq<CanvasAssignment> -> seq<CanvasAssignment>): Option<seq<Record>>
    decreases |courses|
  {
    if courses == [] then Some([])
    else
      var c := courses[|courses| - 1];
      match (Collect(courses[..|courses| - 1], fetch, keep), Paginate(fetch(c.id), PerPage))
      case (Some(rs), Complete(items, _)) => Some(rs + MakeRecords(c, keep(items)))
      case _ => None
  }

  /** The whole list fails exactly when the assignment fetch of some course fails. */
  lemma {:induction false} CollectFails(courses: seq<Course>, fetch: int -> seq<Response<CanvasAssignment>>,
                                        keep: seq<CanvasAssignment> -> seq<CanvasAssignment>)
    ensures Collect(courses, fetch, keep).None?
            <==> exists k :: 0 <= k < |courses| && Paginate(fetch(courses[k].id), PerPage).Aborted?
    decreases |courses|
  {
    if courses != [] {
      var init := courses[..|courses| - 1];
      CollectFails(init, fetch, keep);
      if exists k :: 0 <= k < |init| && Paginate(fetch(init[k].id), PerPage).Aborted? {
        var k :| 0 <= k < |init| && Paginate(fetch(init[k].id), PerPage).Aborted?;
        assert courses[k] == init[k];
      }
      forall k | 0 <= k < |courses| - 1
        ensures courses[k] == init[k]
      {
      }
    }
  }

  /** Every record comes from a kept assignment of one of the courses, labelled with that course. */
  lemma {:induction false} CollectProvenance(courses: seq<Course>, fetch: int -> seq<Response<CanvasAssignment>>,
                                             keep: seq<CanvasAssignment> -> seq<CanvasAssignment>, r: Record)
    requires Collect(courses, fetch, keep).Some? && r in Collect(courses, fetch, keep).value
    ensures exists k :: && 0 <= k < |courses|
                        && Paginate(fetch(courses[k].id), PerPage).Complete?
                        && r.assignment in keep(Paginate(fetch(courses[k].id), PerPage).items)
                        && r == MakeRecord(courses[k], r.assignment)
    decreases |courses|
  {
    var init := courses[..|courses| - 1];
    var c := courses[|courses| - 1];
    var rs := Collect(init, fetch, keep).value;
    var items := Paginate(fetch(c.id), PerPage).items;
    var mine := MakeRecords(c, keep(items));
    if r in rs {
      CollectProvenance(init, fetch, keep, r);
      var k :| && 0 <= k < |init|
               && Paginate(fetch(init[k].id), PerPage).Complete?
               && r.assignment in keep(Paginate(fetch(init[k].id), PerPage).items)
               && r == MakeRecord(init[k], r.assignment);
      assert courses[k] == init[k];
    } else {
      assert r in mine;
      var i :| 0 <= i < |mine| && mine[i] == r;
      assert keep(items)[i] in keep(items);
      assert r == MakeRecord(courses[|courses| - 1], r.assignment);
    }
  }

  /** Every kept assignment of every course becomes a record of the list, labelled with its course. */
  lemma {:induction false} CollectComplete(courses: seq<Course>, fetch: int -> seq<Response<CanvasAssignment>>,
                                           keep: seq<CanvasAssignment> -> seq<CanvasAssignment>, k: int,
                                           a: CanvasAssignment)
    requires Collect(courses, fetch, keep).Some? && 0 <= k < |courses|
    requires Paginate(fetch(courses[k].id), PerPage).Complete?
    requires a in keep(Paginate(fetch(courses[k].id), PerPage).items)
    ensures MakeRecord(courses[k], a) in Collect(courses, fetch, keep).value
    decreases |courses|
  {
    var init := courses[..|courses| - 1];
    if k < |courses| - 1 {
      assert courses[k] == init[k];
      CollectComplete(init, fetch, keep, k, a);
    }
  }

  /** A course of a list that did not fail was fetched completely. */
  lemma CollectedCourseComplete(courses: seq<Course>, fetch: int -> seq<Response<CanvasAssignment>>,
                                keep: seq<CanvasAssignment> -> seq<CanvasAssignment>, k: int)
    requires Collect(courses, fetch, keep).Some? && 0 <= k < |courses|
    ensures Paginate(fetch(courses[k].id), PerPage).Complete?
  {
    CollectFails(courses, fetch, keep);
  }

  /** `_key` of `get_all_assignments`: `(0, due)` when the due timestamp reads, `(1, datetime.max)` otherwise. */
  function AssignmentKey(r: Record): Key {
    if r.due.DueAt? then Key(0, r.due.utc) else Key(1, MaxInstant)
  }

  /** What the tuple order of `_key` means: dated records first, by instant; undated ones all equal, last. */
  lemma AssignmentKeyOrder(r1: Record, r2: Record)
    ensures KeyLe(AssignmentKey(r1), AssignmentKey(r2))
            <==> (r1.due.DueAt? && (!r2.due.DueAt? || r1.due.utc <= r2.due.utc)) || !r2.due.DueAt?
  {
  }

  /** In a list sorted by `_key`, a dated record never follows an undated one, and dated records ascend. */
  lemma SortedDatedFirst(rs: seq<Record>)
    requires SortedBy(rs, AssignmentKey)
    ensures forall i, j :: 0 <= i < j < |rs| && rs[j].due.DueAt? ==>
              rs[i].due.DueAt? && rs[i].due.utc <= rs[j].due.utc
  {
    forall i, j | 0 <= i < j < |rs| && rs[j].due.DueAt?
      ensures rs[i].due.DueAt? && rs[i].due.utc <= rs[j].due.utc
    {
      AssignmentKeyOrder(rs[i], rs[j]);
    }
  }

  /** The `course_id` argument is used only when truthy: given and non-zero. */
  predicate Truthy(courseId: Option<int>) {
    courseId.Some? && courseId.value != 0
  }

  /** The single-course lookup `_request("GET", f"/courses/{course_id}")`: it raises, or gives the name if present. */
  datatype CourseLookup = LookupFailed | Found(name: Option<string>)

  /** The courses to visit: the one requested, named from the lookup or `Course {id}`, or all of the student's. */
  function SelectedCourses(courseId: Option<int>, lookup: CourseLookup,
                           byState: string -> seq<Response<Course>>): Option<seq<Course>>
  {
    if Truthy(courseId) then
      match lookup
      case LookupFailed => None
      case Found(name) => Some([Course(courseId.value, Some(CourseName(Course(courseId.value, name))))])
    else Some(AllCourses(byState))
  }

  /** `get_all_assignments` over the given courses, without the persistence step. */
  function AllAssignments(courses: seq<Course>, fetch: int -> seq<Response<CanvasAssignment>>,
                          onlyUpcoming: bool, todayUtc: int): Option<seq<Record>>
  {
    match Collect(courses, fetch, items => UpcomingOnly(items, onlyUpcoming, todayUtc))
    case None => None
    case Some(rs) => Some(SortBy(rs, AssignmentKey))
  }

  /**
   * The list is the collected records reordered: sorted by `_key` (dated
   * first, ascending), each record as often as it was collected, and records
   * with equal keys in collection order.
   */
  lemma AllAssignmentsSorted(courses: seq<Course>, fetch: int -> seq<Response<CanvasAssignment>>,
                             onlyUpcoming: bool, todayUtc: int, k: Key)
    requires AllAssignments(courses, fetch, onlyUpcoming, todayUtc).Some?
    ensures var rs := Collect(courses, fetch, items => UpcomingOnly(items, onlyUpcoming, todayUtc)).value;
            var out := AllAssignments(courses, fetch, onlyUpcoming, todayUtc).value;
            && SortedBy(out, AssignmentKey)
            && multiset(out) == multiset(rs)
            && WithKey(out, AssignmentKey, k) == WithKey(rs, AssignmentKey, k)
  {
    var rs := Collect(courses, fetch, items => UpcomingOnly(items, onlyUpcoming, todayUtc)).value;
    SortBySortsAndPermutes(rs, AssignmentKey);
    SortByStable(rs, AssignmentKey, k);
  }

  /** Under `only_upcoming` every listed record has a readable due timestamp dated today (UTC) or later. */
  lemma UpcomingRecordsAreDue(courses: seq<Course>, fetch: int -> seq<Response<CanvasAssignment>>,
                              todayUtc: int, r: Record)
    requires AllAssignments(courses, fetch, true, todayUtc).Some?
    requires r in AllAssignments(courses, fetch, true, todayUtc).value
    ensures r.due.DueAt? && WrittenDate(r.due) >= todayUtc
  {
    var keep := items => UpcomingOnly(items, true, todayUtc);
    var rs := Collect(courses, fetch, keep).value;
    SortBySortsAndPermutes(rs, AssignmentKey);
    assert r in multiset(SortBy(rs, AssignmentKey));
    assert r in rs;
    CollectProvenance(courses, fetch, keep, r);
  }

  /**
   * Nothing is lost: every fetched assignment of every course that passes the
   * `only_upcoming` test is listed, as a record of its course.
   */
  lemma AllAssignmentsComplete(courses: seq<Course>, fetch: int -> seq<Response<CanvasAssignment>>,
                               onlyUpcoming: bool, todayUtc: int, k: int)
    requires AllAssignments(courses, fetch, onlyUpcoming, todayUtc).Some? && 0 <= k < |courses|
    ensures Paginate(fetch(courses[k].id), PerPage).Complete?
    ensures forall a :: a in Paginate(fetch(courses[k].id), PerPage).items
                        && (onlyUpcoming ==> IsUpcoming(a, todayUtc))
                        ==> MakeRecord(courses[k], a) in AllAssignments(courses, fetch, onlyUpcoming, todayUtc).value
  {
    var keep := items => UpcomingOnly(items, onlyUpcoming, todayUtc);
    var rs := Collect(courses, fetch, keep).value;
    var out := SortBy(rs, AssignmentKey);
    CollectedCourseComplete(courses, fetch, keep, k);
    SortBySortsAndPermutes(rs, AssignmentKey);
    var items := Paginate(fetch(courses[k].id), PerPage).items;
    forall a | a in items && (onlyUpcoming ==> IsUpcoming(a, todayUtc))
      ensures MakeRecord(courses[k], a) in out
    {
      assert a in keep(items);
      CollectComplete(courses, fetch, keep, k, a);
      assert MakeRecord(courses[k], a) in multiset(rs);
    }
  }

  /** With a truthy `course_id` only that course is visited: every record carries its id and its looked-up name. */
  lemma SelectedCourseRecords(courseId: Option<int>, lookup: CourseLookup, byState: string -> seq<Response<Course>>,
                              fetch: int -> seq<Response<CanvasAssignment>>, onlyUpcoming: bool, todayUtc: int,
                              r: Record)
    requires Truthy(courseId) && SelectedCourses(courseId, lookup, byState).Some?
    requires AllAssignments(SelectedCourses(courseId, lookup, byState).value, fetch, onlyUpcoming, todayUtc).Some?
    requires r in AllAssignments(SelectedCourses(courseId, lookup, byState).value, fetch, onlyUpcoming, todayUtc).value
    ensures lookup.Found?
    ensures r.courseId == courseId.value
    ensures r.courseName == CourseName(Course(courseId.value, lookup.name))
  {
    var courses := SelectedCourses(courseId, lookup, byState).value;
    var keep := items => UpcomingOnly(items, onlyUpcoming, todayUtc);
    var rs := Collect(courses, fetch, keep).value;
    SortBySortsAndPermutes(rs, AssignmentKey);
    assert r in multiset(SortBy(rs, AssignmentKey));
    assert r in rs;
    CollectProvenance(courses, fetch, keep, r);
  }

  /** The window test of `_fetch_and_filter_window`: a readable due with `start <= due < end`. */
  predicate InWindow(a: CanvasAssignment, start: int, end: int) {
    a.due.DueAt? && start <= a.due.utc < end
  }

  function WindowOnly(items: seq<CanvasAssignment>, start: int, end: int): (kept: seq<CanvasAssignment>)
    ensures forall a :: a in kept <==> a in items && InWindow(a, start, end)
  {
    var kept := Filter(items, a => InWindow(a, start, end));
    assert forall a :: a in kept <==> a in items && InWindow(a, start, end) by {
      forall a
        ensures a in kept <==> a in items && InWindow(a, start, end)
      {
        FilterMembers(items, a => InWindow(a, start, end), a);
      }
    }
    kept
  }

  /**
   * The due-order key of lines 371 and 414–416: the due instant, or the end of
   * year 9999 when there is none. An unreadable due has no key, because parsing
   * it raises; the window's filter drops such a record before any sort.
   */
  function InstantKey(r: Record): Key {
    Key(0, if r.due.DueAt? then r.due.utc else MaxInstant)
  }

  /** `_fetch_and_filter_window` over the given courses. */
  function WindowRecords(courses: seq<Course>, fetch: int -> seq<Response<CanvasAssignment>>,
                         start: int, end: int): Option<seq<Record>>
  {
    match Collect(courses, fetch, items => WindowOnly(items, start, end))
    case None => None
    case Some(rs) => Some(SortBy(rs, InstantKey))
  }

  /** Every record of the window is due inside it, and the list ascends by due instant. */
  lemma WindowRecordsInWindow(courses: seq<Course>, fetch: int -> seq<Response<CanvasAssignment>>,
                              start: int, end: int)
    requires WindowRecords(courses, fetch, start, end).Some?
    ensures var out := WindowRecords(courses, fetch, start, end).value;
            && (forall r :: r in out ==> r.due.DueAt? && start <= r.due.utc < end)
            && (forall i, j :: 0 <= i < j < |out| ==> out[i].due.utc <= out[j].due.utc)
  {
    var keep := items => WindowOnly(items, start, end);
    var rs := Collect(courses, fetch, keep).value;
    var out := SortBy(rs, InstantKey);
    SortBySortsAndPermutes(rs, InstantKey);
    forall r | r in out
      ensures r.due.DueAt? && start <= r.due.utc < end
    {
      assert r in multiset(out);
      assert r in rs;
      CollectProvenance(courses, fetch, keep, r);
    }
    forall i, j | 0 <= i < j < |out|
      ensures out[i].due.utc <= out[j].due.utc
    {
      assert out[i] in out && out[j] in out;
      assert KeyLe(InstantKey(out[i]), InstantKey(out[j]));
    }
  }

  /** Nothing due inside the window is lost: every such assignment of every course is listed. */
  lemma WindowRecordsComplete(courses: seq<Course>, fetch: int -> seq<Response<CanvasAssignment>>,
                              start: int, end: int, k: int)
    requires WindowRecords(courses, fetch, start, end).Some? && 0 <= k < |courses|
    ensures Paginate(fetch(courses[k].id), PerPage).Complete?
    ensures forall a :: a in Paginate(fetch(courses[k].id), PerPage).items && InWindow(a, start, end)
                        ==> MakeRecord(courses[k], a) in WindowRecords(courses, fetch, start, end).value
  {
    var keep := items => WindowOnly(items, start, end);
    var rs := Collect(courses, fetch, keep).value;
    var out := SortBy(rs, InstantKey);
    CollectedCourseComplete(courses, fetch, keep, k);
    SortBySortsAndPermutes(rs, InstantKey);
    var items := Paginate(fetch(courses[k].id), PerPage).items;
    forall a | a in items && InWindow(a, start, end)
      ensures MakeRecord(courses[k], a) in out
    {
      assert a in keep(items);
      CollectComplete(courses, fetch, keep, k, a);
      assert MakeRecord(courses[k], a) in multiset(rs);
    }
  }

  /** The stored key of a record, `(courseId, assignmentId)`. */
  function StoredKey(r: Record): (int, int) {
    (r.courseId, r.assignmentId)
  }

  predicate IsNew(r: Record, already: set<(int, int)>) {
    StoredKey(r) !in already
  }

  /**
   * The new-items diff: the fetched records whose key is not stored yet,
   * sorted by due (a missing due counts as the end of year 9999). Every fetched
   * record has passed the window's filter, so none has an unreadable due.
   */
  function NewItems(fetched: seq<Record>, already: set<(int, int)>): (added: seq<Record>)
    requires forall r :: r in fetched ==> !r.due.BadDue?
    ensures forall r :: r in added <==> r in fetched && IsNew(r, already)
    ensures SortedBy(added, InstantKey)
  {
    var kept := Filter(fetched, r => IsNew(r, already));
    var added := SortBy(kept, InstantKey);
    SortBySortsAndPermutes(kept, InstantKey);
    assert forall r :: r in added <==> r in fetched && IsNew(r, already) by {
      forall r
        ensures r in added <==> r in fetched && IsNew(r, already)
      {
        FilterMembers(fetched, r => IsNew(r, already), r);
        assert r in added <==> r in multiset(added);
        assert r in kept <==> r in multiset(kept);
      }
    }
    added
  }

  /** Each new record appears as often as it was fetched, and records due at the same instant keep their fetch order. */
  lemma NewItemsCountsAndOrder(fetched: seq<Record>, already: set<(int, int)>, r: Record, k: Key)
    requires forall r :: r in fetched ==> !r.due.BadDue?
    ensures multiset(NewItems(fetched, already))[r] == if IsNew(r, already) then multiset(fetched)[r] else 0
    ensures WithKey(NewItems(fetched, already), InstantKey, k)
            == WithKey(Filter(fetched, r => IsNew(r, already)), InstantKey, k)
  {
    var kept := Filter(fetched, r => IsNew(r, already));
    SortBySortsAndPermutes(kept, InstantKey);
    SortByStable(kept, InstantKey, k);
    FilterCounts(fetched, r => IsNew(r, already), r);
  }

  /** Nothing stored yet: every fetched record is new. */
  lemma NothingStoredAllNew(fetched: seq<Record>)
    requires forall r :: r in fetched ==> !r.due.BadDue?
    ensures multiset(NewItems(fetched, {})) == multiset(fetched)
  {
    forall r
      ensures multiset(NewItems(fetched, {}))[r] == multiset(fetched)[r]
    {
      NewItemsCountsAndOrder(fetched, {}, r, Key(0, 0));
    }
  }
}
