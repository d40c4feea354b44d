/**
 * `CanvasService.get_all_courses`: the student's courses fetched once per
 * enrollment state (a state whose fetch raises is skipped), joined, and
 * de-duplicated through a dict keyed by course id, so that one record per id
 * remains, the last one fetched, with ids in the order they first appeared.
 */
module Courses {

  import opened Wrappers
  import opened Text
  import opened Pagination

  /** The fields of a Canvas course the service reads: the id and, when the key is present, the name. */
  datatype Course = Course(id: int, name: Option<string>)

  /** The enrollment states asked for, in order. */
  const EnrollmentStates: seq<string> := ["active", "completed", "invited_or_pending", "inactive"]

  /** `course.get("name", f"Course {cid}")`. */
  function CourseName(c: Course): string {
    c.name.GetOr("Course " + IntToString(c.id))
  }

  /** Two different courses without a name never get the same fallback name. */
  lemma UnnamedCoursesKeepDistinctNames(c: Course, d: Course)
    requires c.name.None? && d.name.None? && c.id != d.id
    ensures CourseName(c) != CourseName(d)
  {
    if CourseName(c) == CourseName(d) {
      assert IntToString(c.id) == CourseName(c)[7..];
      assert IntToString(d.id) == CourseName(d)[7..];
      IntToStringInjective(c.id, d.id);
    }
  }

  /** The ids of a list of courses. */
  function IdsOf(cs: seq<Course>): set<int> {
    set c | c in cs :: c.id
  }

  /** Reference: the last course with the given id, if any. */
  function LastWith(cs: seq<Course>, id: int): Option<Course>
    decreases |cs|
  {
    if cs == [] then None
    else if cs[|cs| - 1].id == id then Some(cs[|cs| - 1])
    else LastWith(cs[..|cs| - 1], id)
  }

  /** Reference: the position of the first course with the given id (|cs| when there is none). */
  function FirstWith(cs: seq<Course>, id: int): (r: nat)
    ensures r <= |cs|
    ensures forall j :: 0 <= j < r ==> cs[j].id != id
    ensures r < |cs| ==> cs[r].id == id
    ensures r == |cs| <==> id !in IdsOf(cs)
    decreases |cs|
  {
    if cs == [] then 0
    else if cs[0].id == id then 0
    else
      var r := 1 + FirstWith(cs[1..], id);
      assert IdsOf(cs) == {cs[0].id} + IdsOf(cs[1..]) by {
        assert cs == [cs[0]] + cs[1..];
      }
      r
  }

  /** A Python dict from id to course: its keys in insertion order and its entries. */
  datatype Dict = Dict(keys: seq<int>, values: map<int, Course>)

  ghost predicate WellFormed(d: Dict) {
    && (forall i, j :: 0 <= i < j < |d.keys| ==> d.keys[i] != d.keys[j])
    && (set k | k in d.keys) == d.values.Keys
  }

  /** `d[c["id"]] = c`: a new id goes to the end, an existing one keeps its place and takes the new record. */
  function Put(d: Dict, c: Course): Dict {
    if c.id in d.values then Dict(d.keys, d.values[c.id := c])
    else Dict(d.keys + [c.id], d.values[c.id := c])
  }

  /** The dict comprehension `{c["id"]: c for c in all_courses}`. */
  function Build(cs: seq<Course>): (d: Dict)
    ensures WellFormed(d)
    ensures d.values.Keys == IdsOf(cs)
    ensures forall k :: k in d.values ==> d.values[k].id == k
    decreases |cs|
  {
    if cs == [] then Dict([], map[])
    else
      var init := cs[..|cs| - 1];
      var c := cs[|cs| - 1];
      assert cs == init + [c];
      assert IdsOf(cs) == IdsOf(init) + {c.id};
      Put(Build(init), c)
  }

  /** `.values()`, in key order. */
  function Values(d: Dict): (out: seq<Course>)
    requires WellFormed(d)
    ensures |out| == |d.keys|
  {
    seq(|d.keys|, i requires 0 <= i < |d.keys| => d.values[d.keys[i]])
  }

  /** The last record fetched for an id is the one the dict holds. */
  lemma {:induction false} BuildKeepsLast(cs: seq<Course>, id: int)
    ensures id in Build(cs).values ==> LastWith(cs, id) == Some(Build(cs).values[id])
    ensures id !in Build(cs).values ==> LastWith(cs, id) == None
    decreases |cs|
  {
    if cs != [] {
      BuildKeepsLast(cs[..|cs| - 1], id);
    }
  }

  /** Each id in `ids` first appears in `cs` before the ids after it do. */
  predicate FirstOrdered(cs: seq<Course>, ids: seq<int>) {
    forall i, j :: 0 <= i < j < |ids| ==> FirstWith(cs, ids[i]) < FirstWith(cs, ids[j])
  }

  lemma KeyIsEntry(d: Dict, i: int)
    requires WellFormed(d) && 0 <= i < |d.keys|
    ensures d.keys[i] in d.values
  {
    assert d.keys[i] in (set k | k in d.keys);
  }

  /** Putting one more record keeps the keys in first-appearance order. */
  lemma PutKeepsFirstOrder(init: seq<Course>, c: Course, d0: Dict)
    requires WellFormed(d0) && d0.values.Keys == IdsOf(init) && FirstOrdered(init, d0.keys)
    ensures FirstOrdered(init + [c], Put(d0, c).keys)
  {
    var d := Put(d0, c);
    forall i, j | 0 <= i < j < |d.keys|
      ensures FirstWith(init + [c], d.keys[i]) < FirstWith(init + [c], d.keys[j])
    {
      assert i < |d0.keys| && d.keys[i] == d0.keys[i];
      KeyIsEntry(d0, i);
      FirstWithExtend(init, c, d0.keys[i]);
      if j < |d0.keys| {
        assert d.keys[j] == d0.keys[j];
        KeyIsEntry(d0, j);
        FirstWithExtend(init, c, d0.keys[j]);
      } else {
        assert c.id !in d0.values && d.keys[j] == c.id;
        FirstWithExtend(init, c, c.id);
      }
    }
  }

  /** A key comes before another exactly when its id first appears earlier in the input. */
  lemma {:induction false} BuildKeepsFirstOrder(cs: seq<Course>)
    ensures FirstOrdered(cs, Build(cs).keys)
    decreases |cs|
  {
    if cs != [] {
      var init := cs[..|cs| - 1];
      var c := cs[|cs| - 1];
      assert cs == init + [c];
      BuildKeepsFirstOrder(init);
      PutKeepsFirstOrder(init, c, Build(init));
    }
  }

  lemma FirstWithExtend(cs: seq<Course>, c: Course, id: int)
    ensures id in IdsOf(cs) ==> FirstWith(cs + [c], id) == FirstWith(cs, id)
    ensures id !in IdsOf(cs) && c.id == id ==> FirstWith(cs + [c], id) == |cs|
  {
    var r0, r1 := FirstWith(cs, id), FirstWith(cs + [c], id);
    if r0 < |cs| {
      assert (cs + [c])[r0] == cs[r0];
    } else if c.id == id {
      assert (cs + [c])[|cs|] == c;
    }
  }

  lemma ValuesFacts(cs: seq<Course>)
    ensures var d := Build(cs);
            var out := Values(d);
            && (forall i :: 0 <= i < |out| ==> out[i].id == d.keys[i])
            && (forall i :: 0 <= i < |out| ==> LastWith(cs, out[i].id) == Some(out[i]))
            && IdsOf(out) == IdsOf(cs)
  {
    var d := Build(cs);
    var out := Values(d);
    forall i | 0 <= i < |out|
      ensures out[i].id == d.keys[i] && LastWith(cs, out[i].id) == Some(out[i])
    {
      KeyIsEntry(d, i);
      assert out[i] == d.values[d.keys[i]];
      BuildKeepsLast(cs, d.keys[i]);
    }
    forall k | k in IdsOf(cs)
      ensures k in IdsOf(out)
    {
      assert k in (set k | k in d.keys);
      var i :| 0 <= i < |d.keys| && d.keys[i] == k;
      assert out[i] in out;
    }
    forall k | k in IdsOf(out)
      ensures k in IdsOf(cs)
    {
      var r :| r in out && r.id == k;
      var i :| 0 <= i < |out| && out[i] == r;
      KeyIsEntry(d, i);
    }
  }

  /**
   * `list({c["id"]: c for c in all_courses}.values())`: one course per id,
   * the last one seen for it, in the order the ids first appeared.
   */
  function Dedupe(cs: seq<Course>): (out: seq<Course>)
    ensures forall i, j :: 0 <= i < j < |out| ==> out[i].id != out[j].id
    ensures IdsOf(out) == IdsOf(cs)
    ensures forall i :: 0 <= i < |out| ==> LastWith(cs, out[i].id) == Some(out[i])
    ensures forall i, j :: 0 <= i < j < |out| ==> FirstWith(cs, out[i].id) < FirstWith(cs, out[j].id)
  {
    ValuesFacts(cs);
    BuildKeepsFirstOrder(cs);
    Values(Build(cs))
  }

  /** What one enrollment state contributes: its courses, or none when its fetch raised. */
  function StateCourses(pages: seq<Response<Course>>): seq<Course> {
    match Paginate(pages, PerPage)
    case Complete(items, _) => items
    case Aborted(_) => []
  }

  /** The courses of the given states, in state order, each state fetched through its own pages. */
  function Gathered(states: seq<string>, fetch: string -> seq<Response<Course>>): seq<Course>
    decreases |states|
  {
    if states == [] then []
    else Gathered(states[..|states| - 1], fetch) + StateCourses(fetch(states[|states| - 1]))
  }

  /** `get_all_courses`, with the pages Canvas serves for each enrollment state as input. */
  function AllCourses(fetch: string -> seq<Response<Course>>): seq<Course> {
    Dedupe(Gathered(EnrollmentStates, fetch))
  }

  /** A course id is listed exactly when some state whose fetch completed served a course with it. */
  lemma {:induction false} GatheredIds(states: seq<string>, fetch: string -> seq<Response<Course>>, id: int)
    ensures id in IdsOf(Gathered(states, fetch))
            <==> exists s :: s in states && Paginate(fetch(s), PerPage).Complete?
                             && id in IdsOf(Paginate(fetch(s), PerPage).items)
    decreases |states|
  {
    if states != [] {
      var init, s := states[..|states| - 1], states[|states| - 1];
      GatheredIds(init, fetch, id);
      var a, b := Gathered(init, fetch), StateCourses(fetch(s));
      assert IdsOf(a + b) == IdsOf(a) + IdsOf(b);
      assert states == init + [s];
    }
  }

  lemma AllCoursesIds(fetch: string -> seq<Response<Course>>, id: int)
    ensures id in IdsOf(AllCourses(fetch))
            <==> exists s :: s in EnrollmentStates && Paginate(fetch(s), PerPage).Complete?
                             && id in IdsOf(Paginate(fetch(s), PerPage).items)
  {
    GatheredIds(EnrollmentStates, fetch, id);
  }
}
