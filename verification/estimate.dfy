/**
 * The effort estimate of one assignment (`TaskScheduler.analyze_assignment`).
 * The estimator itself is an opaque collaborator: what it returned, or that it
 * raised, is an input. Reading its numeric fields with `float(...)`/`int(...)`
 * is also taken as given, with three outcomes per field.
 */
module Estimate {

  import opened Wrappers
  import opened Text
  import opened Lists

  /**
   * One numeric field of the estimator's answer after Python's conversion:
   * blank (an empty string, so the `or` default applies), a value, or text that
   * `float`/`int` rejects with an exception.
   */
  datatype Field<T> = Blank | Value(value: T) | Unreadable {
    function Or(default: T): T
      requires !Unreadable?
    {
      if Value? then value else default
    }
  }

  /** What the estimator returned: the string fields as strings, the numeric ones as `Field`s. */
  datatype RawEstimate = RawEstimate(
    estimatedHours: Field<real>,
    shouldSplit: string,
    numSessions: Field<int>,
    sessionDuration: Field<int>,
    taskName: string,
    partOne: string,
    partTwo: string,
    partThree: string)

  datatype EstimatorOutcome = Raised | Returned(raw: RawEstimate)

  /** The dictionary `analyze_assignment` returns. */
  datatype Analysis = Analysis(
    estimatedHours: real,
    shouldSplit: bool,
    numSessions: int,
    sessionDuration: int,
    taskName: string,
    sessionParts: seq<string>)

  /** `assignment_obj.get("name", "Untitled")`. */
  function AssignmentName(name: Option<string>): string {
    name.GetOr("Untitled")
  }

  /** `str(result.should_split).lower() == "true"`. */
  predicate SaysTrue(text: string) {
    Lower(text) == "true"
  }

  /** The labels among the three session parts that are non-empty, in order. */
  function NonEmptyParts(parts: seq<string>): (kept: seq<string>)
    ensures |kept| <= |parts|
    ensures forall i :: 0 <= i < |kept| ==> kept[i] != "" && kept[i] in parts
    ensures forall p :: p in parts && p != "" ==> p in kept
    decreases |parts|
  {
    if parts == [] then []
    else if parts[0] == "" then NonEmptyParts(parts[1..])
    else [parts[0]] + NonEmptyParts(parts[1..])
  }

  /** The fixed estimate used when the estimator fails. */
  function Fallback(name: Option<string>): Analysis {
    Analysis(1.0, false, 1, 60, AssignmentName(name), [])
  }

  predicate ConversionFails(raw: RawEstimate) {
    raw.estimatedHours.Unreadable? || raw.numSessions.Unreadable? || raw.sessionDuration.Unreadable?
  }

  /** `analyze_assignment`: the estimator's answer read field by field, or the fallback. */
  function Analyze(name: Option<string>, outcome: EstimatorOutcome): (a: Analysis)
    ensures outcome.Raised? ==> a == Analysis(1.0, false, 1, 60, AssignmentName(name), [])
    ensures outcome.Returned? && ConversionFails(outcome.raw) ==>
              a == Analysis(1.0, false, 1, 60, AssignmentName(name), [])
    ensures outcome.Returned? && !ConversionFails(outcome.raw) ==>
              var raw := outcome.raw;
              && (a.shouldSplit <==> SaysTrue(raw.shouldSplit))
              && a.estimatedHours == raw.estimatedHours.Or(1.0)
              && a.numSessions == raw.numSessions.Or(1)
              && a.sessionDuration == raw.sessionDuration.Or(60)
              && a.taskName == (if raw.taskName != "" then raw.taskName else AssignmentName(name))
              && a.sessionParts == (if a.shouldSplit then NonEmptyParts([raw.partOne, raw.partTwo, raw.partThree]) else [])
    ensures |a.sessionParts| <= 3
    ensures a.sessionParts != [] ==> a.shouldSplit
    ensures forall i :: 0 <= i < |a.sessionParts| ==> a.sessionParts[i] != ""
  {
    match outcome
    case Raised => Fallback(name)
    case Returned(raw) =>
      if ConversionFails(raw) then Fallback(name)
      else
        var split := SaysTrue(raw.shouldSplit);
        Analysis(
          raw.estimatedHours.Or(1.0),
          split,
          raw.numSessions.Or(1),
          raw.sessionDuration.Or(60),
          if raw.taskName != "" then raw.taskName else AssignmentName(name),
          if split then NonEmptyParts([raw.partOne, raw.partTwo, raw.partThree]) else [])
  }

  /** Non-empty labels keep their order: a label that comes first among the parts comes first in the list. */
  lemma {:induction false} NonEmptyPartsKeepOrder(parts: seq<string>, i: nat, j: nat)
    requires i < j < |parts|
    requires parts[i] != "" && parts[j] != ""
    ensures exists a, b :: 0 <= a < b < |NonEmptyParts(parts)|
                           && NonEmptyParts(parts)[a] == parts[i] && NonEmptyParts(parts)[b] == parts[j]
    decreases |parts|
  {
    var rest := NonEmptyParts(parts[1..]);
    if i == 0 {
      assert parts[j] == parts[1..][j - 1];
      assert parts[j] in rest;
      var b' :| 0 <= b' < |rest| && rest[b'] == parts[j];
      assert NonEmptyParts(parts)[0] == parts[0];
      assert NonEmptyParts(parts)[b' + 1] == parts[j];
    } else {
      NonEmptyPartsKeepOrder(parts[1..], i - 1, j - 1);
      var a', b' :| 0 <= a' < b' < |rest| && rest[a'] == parts[i] && rest[b'] == parts[j];
      if parts[0] == "" {
        assert NonEmptyParts(parts) == rest;
      } else {
        assert NonEmptyParts(parts)[a' + 1] == parts[i];
        assert NonEmptyParts(parts)[b' + 1] == parts[j];
      }
    }
  }

  predicate IsLabel(part: string) {
    part != ""
  }

  /** The kept parts are exactly `[p for p in parts if p]`: each non-empty part once, in order, nothing else. */
  lemma {:induction false} NonEmptyPartsIsFilter(parts: seq<string>)
    ensures NonEmptyParts(parts) == Filter(parts, IsLabel)
    decreases |parts|
  {
    if parts != [] {
      var head, tail := parts[0], parts[1..];
      NonEmptyPartsIsFilter(tail);
      assert parts == [head] + tail;
      FilterAppend([head], tail, IsLabel);
      FilterSingle(head, IsLabel);
      if head == "" {
        assert NonEmptyParts(parts) == NonEmptyParts(tail);
      } else {
        assert NonEmptyParts(parts) == [head] + NonEmptyParts(tail);
      }
    }
  }
}
