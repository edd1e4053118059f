/** The `c_src_update` command: refresh the index entry of a C/C++ source file and, when asked to
    validate, return the sorted list of its problems and checker markers, then optionally start an
    incremental build. The Eclipse and CDT calls are made through `Platform`, whose answers are
    fixed by a `Workspace` and which records each call that has an effect. */
module SrcUpdate {
  import opened Wrappers
  import opened Diagnostics
  import opened ErrorSort
  import opened Sequences

  /** The platform calls that the command makes and that matter to its contract. */
  datatype Event =
    | IndexUpdated        // `getIndexManager().update(..., UPDATE_ALL)`
    | AcquireReadLockCalled   // `index.acquireReadLock()`, logged whether or not it throws
    | AstRequested        // `src.getAST(index, AST_STYLE)`
    | ReleaseReadLockCalled   // `index.releaseReadLock()`
    | CheckersRun         // `CodanRunner.processResource(..., RUN_ON_DEMAND, ...)`
    | ProjectBuilt        // `project.build(INCREMENTAL_BUILD, ...)`

  /** The platform calls that may throw. */
  datatype FailurePoint =
    UpdateFails | GetIndexFails | AcquireFails | AstFails | FindMarkersFails | BuildFails

  /** What the platform answers for the project and file named on the command line: whether
      the C/C++ project exists, the file's location, the problems of its syntax tree, the markers
      on it after the checkers ran, the offset map of the file, and which calls throw. */
  datatype Workspace = Workspace(
    projectExists: bool,
    location: string,
    preprocessorProblems: seq<Problem>,
    semanticProblems: seq<Problem>,
    markers: seq<Marker>,
    offsets: Offsets,
    failures: set<FailurePoint>)

  /** The two optional flags of the command line. */
  datatype Command = Command(validate: bool, build: bool)

  /** The Eclipse side, seen through the calls made on it. */
  class Platform {
    const workspace: Workspace
    var log: seq<Event>

    constructor (workspace: Workspace)
      ensures this.workspace == workspace && log == []
    {
      this.workspace := workspace;
      log := [];
    }

    /** `getIndexManager().update(...)`: false when it throws. */
    method UpdateIndex() returns (updated: bool)
      modifies this
      ensures log == old(log) + [IndexUpdated]
      ensures updated == (UpdateFails !in workspace.failures)
    {
      log := log + [IndexUpdated];
      updated := UpdateFails !in workspace.failures;
    }

    /** `getIndex(projects)`: false when it throws. */
    method GetIndex() returns (obtained: bool)
      ensures obtained == (GetIndexFails !in workspace.failures)
    {
      obtained := GetIndexFails !in workspace.failures;
    }

    /** `index.acquireReadLock()`: the call is logged; false when it throws and the lock is
        not taken. */
    method AcquireReadLock() returns (acquired: bool)
      modifies this
      ensures log == old(log) + [AcquireReadLockCalled]
      ensures acquired == (AcquireFails !in workspace.failures)
    {
      log := log + [AcquireReadLockCalled];
      acquired := AcquireFails !in workspace.failures;
    }

    /** Builds the syntax tree; false when that throws. */
    method GetAst() returns (built: bool)
      modifies this
      ensures log == old(log) + [AstRequested]
      ensures built == (AstFails !in workspace.failures)
    {
      log := log + [AstRequested];
      built := AstFails !in workspace.failures;
    }

    method ReleaseReadLock()
      modifies this
      ensures log == old(log) + [ReleaseReadLockCalled]
    {
      log := log + [ReleaseReadLockCalled];
    }

    method RunCheckers()
      modifies this
      ensures log == old(log) + [CheckersRun]
    {
      log := log + [CheckersRun];
    }

    /** `resource.findMarkers(null, true, DEPTH_ZERO)`. */
    method FindMarkers() returns (markers: Result<seq<Marker>>)
      ensures markers == if FindMarkersFails in workspace.failures then Failure
                         else Success(workspace.markers)
    {
      markers := if FindMarkersFails in workspace.failures then Failure
                 else Success(workspace.markers);
    }

    /** Starts the incremental build; false when that throws. */
    method Build() returns (built: bool)
      modifies this
      ensures log == old(log) + [ProjectBuilt]
      ensures built == (BuildFails !in workspace.failures)
    {
      log := log + [ProjectBuilt];
      built := BuildFails !in workspace.failures;
    }
  }

  /** The calls `getProblems` makes: none when no index is obtained; otherwise `acquireReadLock`
      is called, the tree is requested if that call did not throw, and `releaseReadLock` is
      called in every case. */
  function ProblemsTrace(ws: Workspace): seq<Event>
  {
    if GetIndexFails in ws.failures then []
    else [AcquireReadLockCalled] + (if AcquireFails in ws.failures then [] else [AstRequested]) + [ReleaseReadLockCalled]
  }

  /** What `getProblems` returns: the preprocessor problems, then the semantic problems; or the
      exception of a call that threw. */
  function ProblemsResult(ws: Workspace): Result<seq<Problem>>
  {
    if GetIndexFails in ws.failures || AcquireFails in ws.failures || AstFails in ws.failures
    then Failure
    else Success(ws.preprocessorProblems + ws.semanticProblems)
  }

  /** `getProblems`: the body of the `try` and its `finally`. */
  method GetProblems(p: Platform) returns (problems: Result<seq<Problem>>)
    modifies p
    ensures problems == ProblemsResult(p.workspace)
    ensures p.log == old(p.log) + ProblemsTrace(p.workspace)
  {
    var obtained := p.GetIndex();
    if !obtained {
      // `index` is still null: the `finally` block releases nothing.
      return Failure;
    }
    var acquired := p.AcquireReadLock();
    if acquired {
      var built := p.GetAst();
      problems := if built then Success(p.workspace.preprocessorProblems + p.workspace.semanticProblems)
                  else Failure;
    } else {
      problems := Failure;
    }
    p.ReleaseReadLock();
  }

  /** `getMarkers`: runs the checkers on demand, then reads the markers of the file. */
  method GetMarkers(p: Platform) returns (markers: Result<seq<Marker>>)
    modifies p
    ensures markers == if FindMarkersFails in p.workspace.failures then Failure
                       else Success(p.workspace.markers)
    ensures p.log == old(p.log) + [CheckersRun]
  {
    p.RunCheckers();
    markers := p.FindMarkers();
  }

  /** The records before sorting: every problem record, then the marker records. */
  function PreSort(ws: Workspace): seq<Error>
  {
    var filename := Slashes(ws.location);
    ProblemErrors(ws.preprocessorProblems + ws.semanticProblems, filename, ws.offsets)
      + MarkerErrors(ws.markers, filename, ws.offsets)
  }

  /** Problems and markers are both obtained without an exception. */
  predicate Collects(ws: Workspace)
  {
    ProblemsResult(ws).Success? && FindMarkersFails !in ws.failures
  }

  /** What `execute` returns: `Success(None)` is null, `Success(Some(es))` the list of errors and
      `Failure` the exception of a call that threw. */
  function ExecuteResult(cmd: Command, ws: Workspace): Result<Option<seq<Error>>>
  {
    if !ws.projectExists then Success(None)
    else if UpdateFails in ws.failures then Failure
    else if !cmd.validate then Success(None)
    else if !Collects(ws) || (cmd.build && BuildFails in ws.failures) then Failure
    else Success(Some(MergeSort(PreSort(ws))))
  }

  /** The calls made once the problems are collected: the checkers run, then, with the build
      flag and when the markers could be read, the build. */
  function MarkersTrace(cmd: Command, ws: Workspace): seq<Event>
  {
    if ProblemsResult(ws).Failure? then []
    else if FindMarkersFails in ws.failures || !cmd.build then [CheckersRun]
    else [CheckersRun, ProjectBuilt]
  }

  /** The calls `execute` makes, in order. */
  function ExecuteTrace(cmd: Command, ws: Workspace): seq<Event>
  {
    if !ws.projectExists then []
    else if UpdateFails in ws.failures || !cmd.validate then [IndexUpdated]
    else [IndexUpdated] + ProblemsTrace(ws) + MarkersTrace(cmd, ws)
  }

  /** The records of the file, sorted, and the build: the `validate` branch of `execute`. */
  method Validate(cmd: Command, p: Platform) returns (result: Result<seq<Error>>)
    requires cmd.validate
    modifies p
    ensures result.Success? <==> Collects(p.workspace) && !(cmd.build && BuildFails in p.workspace.failures)
    ensures result.Success? ==> result.value == MergeSort(PreSort(p.workspace))
    ensures p.log == old(p.log) + ProblemsTrace(p.workspace) + MarkersTrace(cmd, p.workspace)
  {
    var ws := p.workspace;
    var problems := GetProblems(p);
    if problems.Failure? {
      return Failure;
    }
    var filename := Slashes(ws.location);
    var errors := CollectProblemErrors(problems.value, filename, ws.offsets);
    assert errors == ProblemErrors(problems.value, filename, ws.offsets);
    var markers := GetMarkers(p);
    if markers.Failure? {
      return Failure;
    }
    errors := CollectMarkerErrors(errors, markers.value, filename, ws.offsets);
    errors := MergeSort(errors);
    if cmd.build {
      var built := p.Build();
      if !built {
        return Failure;
      }
    }
    return Success(errors);
  }

  /** `SrcUpdateCommand.execute`. */
  method Execute(cmd: Command, p: Platform) returns (result: Result<Option<seq<Error>>>)
    modifies p
    ensures result == ExecuteResult(cmd, p.workspace)
    ensures p.log == old(p.log) + ExecuteTrace(cmd, p.workspace)
  {
    if !p.workspace.projectExists {
      return Success(None);
    }
    var updated := p.UpdateIndex();
    if !updated {
      return Failure;
    }
    if !cmd.validate {
      return Success(None);
    }
    ghost var indexed := p.log;
    var errors := Validate(cmd, p);
    result := if errors.Success? then Success(Some(errors.value)) else Failure;
    ghost var problemCalls, markerCalls := ProblemsTrace(p.workspace), MarkersTrace(cmd, p.workspace);
    AppendAssoc(indexed, problemCalls, markerCalls);
    AppendAssoc(old(p.log), [IndexUpdated], problemCalls + markerCalls);
    AppendAssoc([IndexUpdated], problemCalls, markerCalls);
  }

  /** Null is returned exactly when the project does not exist, or when the index update did
      not throw and validation was not asked for; with validation and no exception the result
      is a list, possibly empty; a throwing index update is an exception even without
      validation. */
  lemma ResultGating(cmd: Command, ws: Workspace)
    ensures ExecuteResult(cmd, ws) == Success(None) <==>
              !ws.projectExists || (UpdateFails !in ws.failures && !cmd.validate)
    ensures (ws.projectExists && UpdateFails !in ws.failures && cmd.validate && Collects(ws) &&
             !(cmd.build && BuildFails in ws.failures))
            ==> ExecuteResult(cmd, ws).Success? && ExecuteResult(cmd, ws).value.Some?
    ensures ExecuteResult(cmd, ws) == Failure <==>
              ws.projectExists &&
              (UpdateFails in ws.failures ||
               (cmd.validate && (!Collects(ws) || (cmd.build && BuildFails in ws.failures))))
  {
  }

  /** Nothing is done for a missing project; otherwise the index update comes first and is made
      once, even without validation, and it is the only call when it throws or validation was
      not asked for. */
  lemma TraceGating(cmd: Command, ws: Workspace)
    ensures !ws.projectExists ==> ExecuteTrace(cmd, ws) == []
    ensures ws.projectExists ==>
              |ExecuteTrace(cmd, ws)| > 0 && ExecuteTrace(cmd, ws)[0] == IndexUpdated &&
              multiset(ExecuteTrace(cmd, ws))[IndexUpdated] == 1
    ensures ws.projectExists && (UpdateFails in ws.failures || !cmd.validate) ==>
              ExecuteTrace(cmd, ws) == [IndexUpdated]
  {
    if ws.projectExists && UpdateFails !in ws.failures && cmd.validate {
      var problemCalls, markerCalls := ProblemsTrace(ws), MarkersTrace(cmd, ws);
      assert multiset(ExecuteTrace(cmd, ws)) ==
             multiset([IndexUpdated]) + multiset(problemCalls) + multiset(markerCalls);
      assert IndexUpdated !in problemCalls && IndexUpdated !in markerCalls;
    }
  }

  /** The build is started exactly when the project exists, the index update did not throw,
      validation and the build were asked for and both collections succeeded; it is then
      started once, as the last call. */
  lemma BuildGating(cmd: Command, ws: Workspace)
    ensures ProjectBuilt in ExecuteTrace(cmd, ws) <==>
              ws.projectExists && UpdateFails !in ws.failures && cmd.validate && cmd.build && Collects(ws)
    ensures ProjectBuilt in ExecuteTrace(cmd, ws) ==>
              multiset(ExecuteTrace(cmd, ws))[ProjectBuilt] == 1 &&
              ExecuteTrace(cmd, ws)[|ExecuteTrace(cmd, ws)| - 1] == ProjectBuilt
  {
    if ws.projectExists && UpdateFails !in ws.failures && cmd.validate {
      var problemCalls, markerCalls := ProblemsTrace(ws), MarkersTrace(cmd, ws);
      var before := [IndexUpdated] + problemCalls;
      assert ProjectBuilt !in before;
      assert ExecuteTrace(cmd, ws) == before + markerCalls;
      if cmd.build && Collects(ws) {
        assert markerCalls == [CheckersRun] + [ProjectBuilt];
        AppendAssoc(before, [CheckersRun], [ProjectBuilt]);
      } else {
        assert ProjectBuilt !in markerCalls;
      }
    }
  }

  /** The calls of `t` that concern the read lock: taking it, building the tree under it and
      releasing it. */
  function LockEvents(t: seq<Event>): seq<Event>
    decreases |t|
  {
    if t == [] then [] else (if ConcernsLock(t[0]) then [t[0]] else []) + LockEvents(t[1..])
  }

  /** Taking the read lock, building the tree under it or releasing it. */
  predicate ConcernsLock(e: Event)
  {
    e.AcquireReadLockCalled? || e.AstRequested? || e.ReleaseReadLockCalled?
  }

  lemma {:induction false} LockEventsAppend(a: seq<Event>, b: seq<Event>)
    ensures LockEvents(a + b) == LockEvents(a) + LockEvents(b)
    decreases |a|
  {
    if a == [] {
      assert a + b == b;
    } else {
      assert (a + b)[0] == a[0];
      assert (a + b)[1..] == a[1..] + b;
      LockEventsAppend(a[1..], b);
    }
  }

  /** A run of calls that all concern the lock is its own projection. */
  lemma {:induction false} AllLockEvents(t: seq<Event>)
    requires forall i :: 0 <= i < |t| ==> ConcernsLock(t[i])
    ensures LockEvents(t) == t
    decreases |t|
  {
    if t != [] {
      AllLockEvents(t[1..]);
    }
  }

  /** A run of calls none of which concerns the lock projects to nothing. */
  lemma {:induction false} NoLockEvents(t: seq<Event>)
    requires forall i :: 0 <= i < |t| ==> !ConcernsLock(t[i])
    ensures LockEvents(t) == []
    decreases |t|
  {
    if t != [] {
      NoLockEvents(t[1..]);
    }
  }

  /** Once an index is obtained, `acquireReadLock` is called and then `releaseReadLock` is
      called exactly once, whether or not acquiring the lock or building the tree threw, and the
      tree is requested in between only when the lock was taken; without an index neither call
      is made. */
  lemma LockReleasedOnce(cmd: Command, ws: Workspace)
    ensures LockEvents(ExecuteTrace(cmd, ws)) ==
              if ws.projectExists && UpdateFails !in ws.failures && cmd.validate &&
                 GetIndexFails !in ws.failures
              then [AcquireReadLockCalled] + (if AcquireFails in ws.failures then [] else [AstRequested])
                   + [ReleaseReadLockCalled]
              else []
  {
    NoLockEvents([IndexUpdated]);
    if ws.projectExists && UpdateFails !in ws.failures && cmd.validate {
      var problemCalls, markerCalls := ProblemsTrace(ws), MarkersTrace(cmd, ws);
      LockEventsAppend([IndexUpdated] + problemCalls, markerCalls);
      LockEventsAppend([IndexUpdated], problemCalls);
      AllLockEvents(problemCalls);
      NoLockEvents(markerCalls);
    }
  }

  /** When acquiring the lock throws, the lock is not taken and no tree is requested, yet
      `releaseReadLock` is still called, once. */
  lemma ReleaseWithoutLock(cmd: Command, ws: Workspace)
    requires ws.projectExists && UpdateFails !in ws.failures && cmd.validate
    requires GetIndexFails !in ws.failures && AcquireFails in ws.failures
    ensures AstRequested !in ExecuteTrace(cmd, ws)
    ensures multiset(ExecuteTrace(cmd, ws))[ReleaseReadLockCalled] == 1
  {
    var markerCalls := MarkersTrace(cmd, ws);
    assert ExecuteTrace(cmd, ws) == [IndexUpdated, AcquireReadLockCalled, ReleaseReadLockCalled] + markerCalls;
    assert AstRequested !in markerCalls && ReleaseReadLockCalled !in markerCalls;
  }

  /** `releaseReadLock` is called as many times as `acquireReadLock` is called: once when an
      index is obtained, never otherwise. When acquiring throws, the lock is not taken and no
      tree is requested, yet the release is still made. */
  lemma LockCounts(cmd: Command, ws: Workspace)
    ensures var t := ExecuteTrace(cmd, ws);
            multiset(t)[ReleaseReadLockCalled] == multiset(t)[AcquireReadLockCalled] ==
              if ws.projectExists && UpdateFails !in ws.failures && cmd.validate &&
                 GetIndexFails !in ws.failures then 1 else 0
    ensures ws.projectExists && UpdateFails !in ws.failures && cmd.validate &&
            GetIndexFails !in ws.failures && AcquireFails in ws.failures ==>
              AstRequested !in ExecuteTrace(cmd, ws) &&
              multiset(ExecuteTrace(cmd, ws))[ReleaseReadLockCalled] == 1
  {
    var t := ExecuteTrace(cmd, ws);
    if ws.projectExists && UpdateFails !in ws.failures && cmd.validate {
      var tail := MarkersTrace(cmd, ws);
      assert t == [IndexUpdated] + ProblemsTrace(ws) + tail;
      assert multiset(tail)[AcquireReadLockCalled] == 0 && multiset(tail)[ReleaseReadLockCalled] == 0;
      if GetIndexFails !in ws.failures {
        var mid := if AcquireFails in ws.failures then [] else [AstRequested];
        assert ProblemsTrace(ws) == [AcquireReadLockCalled] + mid + [ReleaseReadLockCalled];
        assert multiset(mid)[AcquireReadLockCalled] == 0 && multiset(mid)[ReleaseReadLockCalled] == 0;
        if AcquireFails in ws.failures {
          ReleaseWithoutLock(cmd, ws);
        }
      }
    }
  }

  /** A returned list is sorted by (line, column), is a permutation of the records before
      sorting, and at every position holds the problem records in their order and then the marker
      records in their order; so it has one record per problem plus one per surviving marker. */
  lemma ErrorsSortedAndStable(cmd: Command, ws: Workspace, errors: seq<Error>)
    requires ExecuteResult(cmd, ws) == Success(Some(errors))
    ensures Sorted(errors)
    ensures multiset(errors) == multiset(PreSort(ws))
    ensures var filename := Slashes(ws.location);
            forall line, column :: At(errors, line, column) ==
              At(ProblemErrors(ws.preprocessorProblems + ws.semanticProblems, filename, ws.offsets), line, column)
              + At(MarkerErrors(ws.markers, filename, ws.offsets), line, column)
    ensures |errors| == |ws.preprocessorProblems| + |ws.semanticProblems| +
                        |MarkerErrors(ws.markers, Slashes(ws.location), ws.offsets)|
  {
    var filename := Slashes(ws.location);
    var problemErrors := ProblemErrors(ws.preprocessorProblems + ws.semanticProblems, filename, ws.offsets);
    var markerErrors := MarkerErrors(ws.markers, filename, ws.offsets);
    assert errors == MergeSort(problemErrors + markerErrors);
    forall line, column
      ensures At(errors, line, column) == At(problemErrors, line, column) + At(markerErrors, line, column)
    {
      MergeSortStable(problemErrors + markerErrors, line, column);
      AtAppend(problemErrors, markerErrors, line, column);
    }
    assert |errors| == |multiset(errors)| == |multiset(problemErrors + markerErrors)|;
  }

  /** Any stable sort of the records by (line, column), the JDK's included, gives the list
      that `execute` returns. */
  lemma AnyStableSortAgrees(cmd: Command, ws: Workspace, errors: seq<Error>, sorted: seq<Error>)
    requires ExecuteResult(cmd, ws) == Success(Some(errors))
    requires Sorted(sorted)
    requires forall line, column :: At(sorted, line, column) == At(PreSort(ws), line, column)
    ensures sorted == errors
  {
    forall line, column ensures At(errors, line, column) == At(sorted, line, column) {
      MergeSortStable(PreSort(ws), line, column);
    }
    SortedDeterminedByPositions(errors, sorted);
  }
}
