# eclim: C/C++ source validation and "impl" stub rendering, modelled in Dafny

This project models two independent pieces of eclim, the Eclipse back end for Vim.

**`c_src_update` (`SrcUpdateCommand`).** The command first refreshes the CDT index entry of a
C/C++ file. When asked to validate, it gathers two kinds of diagnostics:

- the parser problems of the file's syntax tree, read under the index read lock;
- the markers that the Codan checkers leave on the file.

It turns both into one list of `Error` records, sorts that list by (line, column), and can then
start an incremental build. The model has four modules:

- `Diagnostics`: the records, the normalisation rules (task markers skipped, position fallback,
  severity default) and the two collecting loops, proved against the function `MarkerErrors` and
  a per-index statement.
- `ErrorSort`: the comparator and a stable merge sort, proved sorted, a permutation and stable.
  `AnyStableSortAgrees` shows that any stable sort by (line, column), the JDK's included,
  returns the same list.
- `SrcUpdate`: `getProblems`, `getMarkers` and `execute` as methods over a `Platform` object.
  `Platform` stands for the Eclipse/CDT calls. A `Workspace` value fixes its answers: whether the
  project exists, the problems, the markers, the offset map, and which calls throw. Each call
  with an effect is recorded in a `log` of events. The methods are proved equal to the functions
  `ExecuteResult`/`ExecuteTrace`, and lemmas state the result gating, the build gating, the
  read-lock pairing and the order of the returned list.
- `Wrappers`: Java's `null` is `Option.None`; a thrown exception is `Result.Failure`.

**`ImplFilter.filter`.** This renders an `ImplResult` as text: the type name, then one block of
method stubs per super type that has methods, then a list of the super types that were not
found. The module `ImplFilter` holds `Filter`, a method that appends to a buffer the way the
source does. It is proved equal to the function `Render`, and the layout is proved about
`Render`. `Strings` models `StringUtils.replace` and a separator join.

## Model

| member | source | states |
|---|---|---|
| `Diagnostics.Slashes` | org.eclim.cdt/java/org/eclim/plugin/cdt/command/src/SrcUpdateCommand.java:106-107 | the reported path has the location's length; every backslash becomes `/`, so none is left, and every other character is kept |
| `Diagnostics.CollectProblemErrors` | org.eclim.cdt/java/org/eclim/plugin/cdt/command/src/SrcUpdateCommand.java:109-117 | exactly one record per problem, in order; its line and column are the offset map at the problem's start; message and warning flag are copied |
| `Diagnostics.MarkerError` | org.eclim.cdt/java/org/eclim/plugin/cdt/command/src/SrcUpdateCommand.java:121-148 | a marker yields a record iff it is not a task and has a positive start offset or a positive line number; a positive offset gives the offset map's position, else the position is (line, 1); the message is the marker's (possibly null); the record is a warning iff the severity is not present-and-equal-to error, so an absent severity is a warning |
| `Diagnostics.CollectMarkerErrors` | org.eclim.cdt/java/org/eclim/plugin/cdt/command/src/SrcUpdateCommand.java:119-149 | the loop with its two `continue`s appends exactly `MarkerErrors` of the markers to the records already collected |
| `Diagnostics.MarkerErrorsAppend` | org.eclim.cdt/java/org/eclim/plugin/cdt/command/src/SrcUpdateCommand.java:120-149 | the records of a concatenation of markers are the records of each part, in order (marker-store order is kept) |
| `Diagnostics.TaskMarkersIgnored` | org.eclim.cdt/java/org/eclim/plugin/cdt/command/src/SrcUpdateCommand.java:121-124 | removing every task marker does not change the records at all, whatever the task markers' other attributes are |
| `Diagnostics.MarkerErrorsMembers` | org.eclim.cdt/java/org/eclim/plugin/cdt/command/src/SrcUpdateCommand.java:120-149 | a record is among the marker records iff some marker yields exactly that record |
| `ErrorSort.CompareIsLexicographic` | org.eclim.cdt/java/org/eclim/plugin/cdt/command/src/SrcUpdateCommand.java:152-160 | the comparator orders by line, then by column; it is zero exactly at equal positions and its sign is antisymmetric |
| `ErrorSort.MergePermutes` | org.eclim.cdt/java/org/eclim/plugin/cdt/command/src/SrcUpdateCommand.java:151-164 | merging two runs keeps the multiset of their records |
| `ErrorSort.MergeSorted` | org.eclim.cdt/java/org/eclim/plugin/cdt/command/src/SrcUpdateCommand.java:151-164 | merging two sorted runs gives a sorted run |
| `ErrorSort.MergeSort` | org.eclim.cdt/java/org/eclim/plugin/cdt/command/src/SrcUpdateCommand.java:151-164 | the sorted list is a permutation of its input and is non-decreasing by (line, column) |
| `ErrorSort.MergeStable` | org.eclim.cdt/java/org/eclim/plugin/cdt/command/src/SrcUpdateCommand.java:151-164 | at every position, a merge puts the left run's records, in order, before the right run's |
| `ErrorSort.MergeSortStable` | org.eclim.cdt/java/org/eclim/plugin/cdt/command/src/SrcUpdateCommand.java:151-164 | the sort is stable: at every position the records keep their input order |
| `ErrorSort.SortedDeterminedByPositions` | org.eclim.cdt/java/org/eclim/plugin/cdt/command/src/SrcUpdateCommand.java:151-164 | two sorted lists with the same records, in the same order, at every position are equal, so every stable sort gives the same list |
| `SrcUpdate.GetProblems` | org.eclim.cdt/java/org/eclim/plugin/cdt/command/src/SrcUpdateCommand.java:177-197 | returns the preprocessor problems followed by the semantic problems, or the exception; once an index is obtained it logs the `acquireReadLock` call, the AST request (only when that call did not throw) and the `releaseReadLock` call, and it logs nothing when no index is obtained |
| `SrcUpdate.GetMarkers` | org.eclim.cdt/java/org/eclim/plugin/cdt/command/src/SrcUpdateCommand.java:199-207 | runs the checkers once, then returns the file's markers or the exception of reading them |
| `SrcUpdate.Validate` | org.eclim.cdt/java/org/eclim/plugin/cdt/command/src/SrcUpdateCommand.java:103-172 | succeeds iff problems and markers were obtained and a requested build did not throw; the list is the sort of all problem records followed by all marker records; the build is the last call |
| `SrcUpdate.Execute` | org.eclim.cdt/java/org/eclim/plugin/cdt/command/src/SrcUpdateCommand.java:88-175 | the result is `ExecuteResult` and the calls made are `ExecuteTrace` |
| `SrcUpdate.ResultGating` | org.eclim.cdt/java/org/eclim/plugin/cdt/command/src/SrcUpdateCommand.java:96-174 | null is returned iff the project does not exist, or the index update did not throw and validation was not asked for; there is a list (possibly empty) when the update, both collections and a requested build did not throw; an exception otherwise, which includes a throwing update without validation |
| `SrcUpdate.TraceGating` | org.eclim.cdt/java/org/eclim/plugin/cdt/command/src/SrcUpdateCommand.java:96-174 | no call is made for a missing project; otherwise the index update comes first and is made once, and it is the only call when it throws or validation was not asked for |
| `SrcUpdate.BuildGating` | org.eclim.cdt/java/org/eclim/plugin/cdt/command/src/SrcUpdateCommand.java:99-172 | a build is started iff the project exists, the index update did not throw, validate and build are both asked for, and problems and markers were both obtained; it is then started once, as the last call |
| `SrcUpdate.LockReleasedOnce` | org.eclim.cdt/java/org/eclim/plugin/cdt/command/src/SrcUpdateCommand.java:180-196 | the lock-related calls are exactly: the `acquireReadLock` call, the AST request (only if acquiring did not throw), the `releaseReadLock` call, whenever validation ran after a successful index update and an index was obtained, whether or not acquiring or the AST build throws; there are none otherwise |
| `SrcUpdate.LockCounts` | org.eclim.cdt/java/org/eclim/plugin/cdt/command/src/SrcUpdateCommand.java:180-196 | `releaseReadLock` is called as many times as `acquireReadLock` is called: once when validation ran and an index was obtained, never otherwise; when acquiring throws, no tree is requested and the release is still made |
| `SrcUpdate.ReleaseWithoutLock` | org.eclim.cdt/java/org/eclim/plugin/cdt/command/src/SrcUpdateCommand.java:184-196 | when `acquireReadLock` throws after an index was obtained, the lock is not taken and no tree is requested, yet `releaseReadLock` is called once |
| `SrcUpdate.ErrorsSortedAndStable` | org.eclim.cdt/java/org/eclim/plugin/cdt/command/src/SrcUpdateCommand.java:104-171 | a returned list is sorted and is a permutation of the pre-sort list; at every position it holds the problem records in their order and then the marker records in theirs; its length is the number of problems plus the number of surviving markers |
| `SrcUpdate.AnyStableSortAgrees` | org.eclim.cdt/java/org/eclim/plugin/cdt/command/src/SrcUpdateCommand.java:151-164 | any sorted list that keeps the pre-sort order at every position is the returned list |
| `Strings.Replace` | src/java/org/eclim/plugin/jdt/command/impl/ImplFilter.java:81-83 | `StringUtils.replace`: occurrences of `from` are replaced scanning left to right without overlap; an empty text or an empty `from` leaves the text unchanged, and a `to` as long as `from` keeps the length |
| `Strings.ReplaceRoundTrip` | src/java/org/eclim/plugin/jdt/command/impl/ImplFilter.java:81-83 | replacing every `c` by `c`+`u` is undone by replacing every `c`+`u` by `c` |
| `Strings.ReplaceCharFollowed` | src/java/org/eclim/plugin/jdt/command/impl/ImplFilter.java:83 | after every `c` became `c`+`d`, each `c` of the result is followed by `d` |
| `Strings.ReplaceCharAppend` | src/java/org/eclim/plugin/jdt/command/impl/ImplFilter.java:81-83 | replacing one character distributes over concatenation |
| `Strings.JoinAppend` | src/java/org/eclim/plugin/jdt/command/impl/ImplFilter.java:75-84 | joining two non-empty lists puts exactly one separator between their joins |
| `ImplFilter.RenderMethod` | src/java/org/eclim/plugin/jdt/command/impl/ImplFilter.java:79-84 | the body of the method loop produces exactly the method's line: commented out when implemented, continuation lines re-indented, a tab in front |
| `ImplFilter.AppendMethods` | src/java/org/eclim/plugin/jdt/command/impl/ImplFilter.java:73-86 | the indexed method loop appends exactly the methods text of the block |
| `ImplFilter.AppendBlock` | src/java/org/eclim/plugin/jdt/command/impl/ImplFilter.java:67-87 | appends a blank line iff the buffer is non-empty, then `package <pkg>;` on its own line, `<sig> {`, the methods and `\n}` |
| `ImplFilter.AppendNotFoundLines` | src/java/org/eclim/plugin/jdt/command/impl/ImplFilter.java:94-96 | the loop over the missing types appends one `\n\t// <sig>` line per type, in order |
| `ImplFilter.AppendNotFound` | src/java/org/eclim/plugin/jdt/command/impl/ImplFilter.java:91-97 | appends nothing when every type was found, else a blank line, the header and one `\n\t// <sig>` line per missing type, in order |
| `ImplFilter.Filter` | src/java/org/eclim/plugin/jdt/command/impl/ImplFilter.java:46-104 | the buffer-appending method returns exactly `Render` of its argument |
| `ImplFilter.MethodLineRecoversSignature` | src/java/org/eclim/plugin/jdt/command/impl/ImplFilter.java:79-84 | a method's line starts with a tab; removing the added tabs after line breaks (and, for an implemented method, the leading `//` and the `//` after each tab) gives back the signature, so the comment-out runs before the re-indent |
| `ImplFilter.MethodLineShape` | src/java/org/eclim/plugin/jdt/command/impl/ImplFilter.java:80-84 | an implemented method's line starts with a tab and `//`; every line break in a method's line is followed by a tab |
| `ImplFilter.MethodsTextAppend` | src/java/org/eclim/plugin/jdt/command/impl/ImplFilter.java:75-84 | each method contributes its line, and two neighbouring methods are separated by a single line break |
| `ImplFilter.AppendBlocksIsJoin` | src/java/org/eclim/plugin/jdt/command/impl/ImplFilter.java:57-88 | the buffer after the super types is the type name and the blocks joined by blank lines; an empty type name adds no piece, so no separator precedes the first block |
| `ImplFilter.BlocksAppend` | src/java/org/eclim/plugin/jdt/command/impl/ImplFilter.java:57-88 | the blocks of a concatenation of super types are the blocks of each part, in order |
| `ImplFilter.NoMethodsNoBlock` | src/java/org/eclim/plugin/jdt/command/impl/ImplFilter.java:59-65 | a super type whose methods are null or empty adds no block, yet is listed when not found |
| `ImplFilter.NotFoundAppend` | src/java/org/eclim/plugin/jdt/command/impl/ImplFilter.java:57-61 | the not-found list of a concatenation is the list of each part, in input order |
| `ImplFilter.NotFoundMembers` | src/java/org/eclim/plugin/jdt/command/impl/ImplFilter.java:56-61 | a type is in the not-found list iff it is a super type that was not found |
| `ImplFilter.NotFoundSectionPresent` | src/java/org/eclim/plugin/jdt/command/impl/ImplFilter.java:91-97 | the not-found section is present iff some super type was not found, and is then the blank line, the header and one line per missing type |
| `ImplFilter.RenderLayout` | src/java/org/eclim/plugin/jdt/command/impl/ImplFilter.java:46-104 | a non-impl argument renders as ""; the output starts with the type name, is exactly it when the super-type list is null, and otherwise is the joined blocks followed by the not-found section |

## Left out

- `getTranslationUnit` and the marker reads `isSubtypeOf` and `getAttribute` can throw a `CoreException` in Eclipse (for a marker deleted meanwhile, say); the model assumes they do not. Of the calls before validation, only the index `update` may throw.
- The Eclipse and CDT calls are represented only by their outcomes in `Workspace`, which the `Platform` stubs return. This covers `ProjectUtils.getProject`, `CUtils.getCProject`, `getTranslationUnit`, the index manager's `update` and `getIndex`, `getAST`, `CPPVisitor.getProblems`, `CodanRunner.processResource`, `findMarkers` and `project.build`. What they compute is foreign code.
- The project and file names on the command line are not modelled: `Workspace` describes the project and file they resolve to. Option parsing and the `@Command` annotation are glue.
- `FileOffsets.compile` reads the file. The model takes its offset-to-(line, column) map as an arbitrary function and does not model the I/O exception it may throw. The map is not assumed to give positions of at least 1, because the code does not check that.
- The read lock's concurrency semantics are left out. Only the order and count of the `acquireReadLock` and `releaseReadLock` calls are kept, in the event log; a call is logged whether or not it throws.
- A missing translation unit or resource (a null dereference in Java) is not modelled. A marker attribute of the wrong Java type (a `ClassCastException`) is not modelled either.
- The AST style flags are inputs of the foreign `getAST` and have no effect on the model.
- `ErrorSort.Compare` subtracts mathematical integers. Java's `int` subtraction can overflow when lines or columns are more than 2^31 apart. The code assumes small non-negative values, so the model does not treat that case.
- The comparator's `equals` override has no effect on sorting and is left out.
- `Collections.sort` sorts the list in place. The model sorts the list's value with `ErrorSort.MergeSort`, because the list is local and nobody else holds it. `AnyStableSortAgrees` shows that the choice of stable algorithm does not matter.
- In `ImplFilter`, Java null strings are not modelled: `StringBuffer.append(null)` would write `null`, and the model treats every type name, package and signature as present. The `methods != null` test at line 74 always holds at that point and has no separate branch.

Three behaviours of the code that the model keeps as written:

- A build that throws makes `execute` throw. It is not logged and ignored.
- The build is an ordinary call made after the list is sorted; nothing about it is asynchronous in this code.
- If `acquireReadLock` throws, the `finally` block still calls `releaseReadLock`, because the index was obtained.
