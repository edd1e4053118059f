/** The records of the validation pipeline and the rules that turn parser problems and checker
    markers into error records. */
module Diagnostics {
  import opened Wrappers

  /** `IMarker.SEVERITY_ERROR`; informational markers are 0 and warnings 1. */
  const SEVERITY_ERROR: int := 2

  /** A one-based (line, column) pair, as `FileOffsets.offsetToLineColumn` returns it. */
  datatype Position = Position(line: int, column: int)

  /** The offset-to-position map of one file (`FileOffsets` after it has read the file). */
  type Offsets = int -> Position

  /** A problem reported by the preprocessor or by semantic analysis. */
  datatype Problem = Problem(message: string, sourceStart: int, isWarning: bool)

  /** A marker of the static checkers; each attribute may be absent. `isTask` says whether the
      marker's kind is a subtype of the task kind (FIXME, TODO, ...). */
  datatype Marker = Marker(isTask: bool, charStart: Option<int>, lineNumber: Option<int>,
                           severity: Option<int>, message: Option<string>)

  /** The error record handed back to the editor; a marker without a message gives a null
      message. */
  datatype Error = Error(message: Option<string>, filename: string, line: int, column: int,
                         warning: bool)

  /** The report path: every backslash of the resource location becomes a slash. */
  function Slashes(location: string): (path: string)
    ensures |path| == |location| && '\\' !in path
    ensures forall i :: 0 <= i < |path| && location[i] == '\\' ==> path[i] == '/'
    ensures forall i :: 0 <= i < |path| && location[i] != '\\' ==> path[i] == location[i]
  {
    seq(|location|, i requires 0 <= i < |location| => if location[i] == '\\' then '/' else location[i])
  }

  /** The record of one parser problem: always produced, positioned at its start offset. */
  function ProblemError(p: Problem, filename: string, offsets: Offsets): Error
  {
    Error(Some(p.message), filename, offsets(p.sourceStart).line, offsets(p.sourceStart).column,
          p.isWarning)
  }

  /** The records of the parser problems, one per problem, in order. */
  function ProblemErrors(ps: seq<Problem>, filename: string, offsets: Offsets): (es: seq<Error>)
    ensures |es| == |ps|
  {
    seq(|ps|, i requires 0 <= i < |ps| => ProblemError(ps[i], filename, offsets))
  }

  /** A marker's start offset is usable: present and positive. */
  predicate HasOffset(m: Marker)
  {
    m.charStart.Some? && m.charStart.value > 0
  }

  /** A marker's line number is usable: present and positive. */
  predicate HasLine(m: Marker)
  {
    m.lineNumber.Some? && m.lineNumber.value > 0
  }

  /** Where a marker is reported: at its start offset if usable, else at column 1 of its line
      if usable, else nowhere. */
  function MarkerPosition(m: Marker, offsets: Offsets): Option<Position>
  {
    if HasOffset(m) then Some(offsets(m.charStart.value))
    else if HasLine(m) then Some(Position(m.lineNumber.value, 1))
    else None
  }

  /** The record of one marker, if it yields one. */
  function MarkerError(m: Marker, filename: string, offsets: Offsets): (r: Option<Error>)
    ensures r.Some? <==> !m.isTask && (HasOffset(m) || HasLine(m))
    ensures r.Some? && HasOffset(m) ==>
              Position(r.value.line, r.value.column) == offsets(m.charStart.value)
    ensures r.Some? && !HasOffset(m) ==>
              r.value.line == m.lineNumber.value && r.value.column == 1
    ensures r.Some? ==> r.value.message == m.message && r.value.filename == filename
    ensures r.Some? ==> (r.value.warning <==> m.severity != Some(SEVERITY_ERROR))
  {
    if m.isTask then None
    else
      match MarkerPosition(m, offsets)
      case None => None
      case Some(pos) =>
        Some(Error(m.message, filename, pos.line, pos.column,
                   m.severity.None? || m.severity.value != SEVERITY_ERROR))
  }

  /** The records of the markers that yield one, in marker order. */
  function MarkerErrors(ms: seq<Marker>, filename: string, offsets: Offsets): seq<Error>
    decreases |ms|
  {
    if ms == [] then []
    else
      var last := ms[|ms| - 1];
      MarkerErrors(ms[..|ms| - 1], filename, offsets) +
        match MarkerError(last, filename, offsets)
        case None => []
        case Some(e) => [e]
  }

  /** The first loop of `execute`: one record per problem, copied field by field. */
  method CollectProblemErrors(problems: seq<Problem>, filename: string, offsets: Offsets)
    returns (errors: seq<Error>)
    ensures |errors| == |problems|
    ensures forall i :: 0 <= i < |problems| ==>
              errors[i] == Error(Some(problems[i].message), filename,
                                 offsets(problems[i].sourceStart).line,
                                 offsets(problems[i].sourceStart).column,
                                 problems[i].isWarning)
  {
    errors := [];
    for i := 0 to |problems|
      invariant |errors| == i
      invariant forall k :: 0 <= k < i ==> errors[k] == ProblemError(problems[k], filename, offsets)
    {
      var problem := problems[i];
      var lineColumn := offsets(problem.sourceStart);
      errors := errors + [Error(Some(problem.message), filename, lineColumn.line, lineColumn.column,
                                problem.isWarning)];
    }
  }

  /** The second loop of `execute`: task markers and markers without a usable position are
      skipped; the others are appended after the records already collected. */
  method CollectMarkerErrors(errors: seq<Error>, markers: seq<Marker>, filename: string,
                             offsets: Offsets)
    returns (result: seq<Error>)
    ensures result == errors + MarkerErrors(markers, filename, offsets)
  {
    result := errors;
    for i := 0 to |markers|
      invariant result == errors + MarkerErrors(markers[..i], filename, offsets)
    {
      var marker := markers[i];
      assert markers[..i + 1][..i] == markers[..i];
      if marker.isTask {
        continue;
      }
      var lineColumn: Option<Position> := None;
      var start := marker.charStart;
      if start.Some? && start.value > 0 {
        lineColumn := Some(offsets(start.value));
      } else {
        var line := marker.lineNumber;
        if line.Some? && line.value > 0 {
          lineColumn := Some(Position(line.value, 1));
        }
      }
      if lineColumn.None? {
        continue;
      }
      var severity := marker.severity;
      result := result + [Error(marker.message, filename, lineColumn.value.line,
                                lineColumn.value.column,
                                severity.None? || severity.value != SEVERITY_ERROR)];
    }
    assert markers[..|markers|] == markers;
  }

  /** Marker records of a concatenation are the records of each part, in order. */
  lemma {:induction false} MarkerErrorsAppend(a: seq<Marker>, b: seq<Marker>, filename: string,
                                              offsets: Offsets)
    ensures MarkerErrors(a + b, filename, offsets) ==
            MarkerErrors(a, filename, offsets) + MarkerErrors(b, filename, offsets)
    decreases |b|
  {
    if b == [] {
      assert a + b == a;
    } else {
      var init := b[..|b| - 1];
      assert (a + b)[..|a + b| - 1] == a + init;
      assert (a + b)[|a + b| - 1] == b[|b| - 1];
      MarkerErrorsAppend(a, init, filename, offsets);
    }
  }

  /** The markers that are not tasks, in order. */
  function NonTasks(ms: seq<Marker>): (r: seq<Marker>)
    ensures forall m :: m in r <==> m in ms && !m.isTask
    decreases |ms|
  {
    if ms == [] then []
    else NonTasks(ms[..|ms| - 1]) + if ms[|ms| - 1].isTask then [] else [ms[|ms| - 1]]
  }

  /** Task markers have no effect on the records, whatever their other attributes. */
  lemma {:induction false} TaskMarkersIgnored(ms: seq<Marker>, filename: string, offsets: Offsets)
    ensures MarkerErrors(ms, filename, offsets) == MarkerErrors(NonTasks(ms), filename, offsets)
    decreases |ms|
  {
    if ms != [] {
      var init := ms[..|ms| - 1];
      var last := ms[|ms| - 1];
      TaskMarkersIgnored(init, filename, offsets);
      MarkerErrorsAppend(NonTasks(init), if last.isTask then [] else [last], filename, offsets);
      assert MarkerErrors([last], filename, offsets) ==
             MarkerErrors([], filename, offsets) +
             (match MarkerError(last, filename, offsets) case None => [] case Some(e) => [e]);
    }
  }

  /** Every marker record comes from a marker that yields exactly that record, and every
      marker that yields a record contributes it. */
  lemma {:induction false} MarkerErrorsMembers(ms: seq<Marker>, filename: string,
                                               offsets: Offsets)
    ensures forall e :: e in MarkerErrors(ms, filename, offsets) <==>
              exists i :: 0 <= i < |ms| && MarkerError(ms[i], filename, offsets) == Some(e)
    decreases |ms|
  {
    if ms != [] {
      var init := ms[..|ms| - 1];
      MarkerErrorsMembers(init, filename, offsets);
      forall e | e in MarkerErrors(ms, filename, offsets)
        ensures exists i :: 0 <= i < |ms| && MarkerError(ms[i], filename, offsets) == Some(e)
      {
        if e in MarkerErrors(init, filename, offsets) {
          var i :| 0 <= i < |init| && MarkerError(init[i], filename, offsets) == Some(e);
          assert ms[i] == init[i];
        } else {
          assert MarkerError(ms[|ms| - 1], filename, offsets) == Some(e);
        }
      }
      forall e, i | 0 <= i < |ms| && MarkerError(ms[i], filename, offsets) == Some(e)
        ensures e in MarkerErrors(ms, filename, offsets)
      {
        if i < |ms| - 1 {
          assert init[i] == ms[i];
        }
      }
    }
  }
}
