# play-diff-api in Dafny

A model of the diff service: clients submit two base64 texts under a shared
identifier (the "left" and "right" sides) and ask for their comparison. When
the decoded texts have the same length, the service reports every stretch of
positions where they differ as "Offset: X & Lenght: Y" (the spelling is the
program's own).

- `decimal.dfy` (module `Decimal`): Java's decimal text of a non-negative
  `int`, and the reading of such text back.
- `diff_tools.dfy` (module `DiffTools`): the mismatch-run finder
  `diffString`. `RunsFrom`/`DiffRuns` specify the scan as a recursive
  function; `FindDifferences` is the program's nested loop (outer index `i`,
  inner cursor `j`, the `lenght` counter, `i = j` before the `for` increment)
  and `DiffString` adds the rendering loop; both are proved to compute the
  specification. The lemmas state what the runs are: ordered, separated,
  starting at a difference, covering every difference, and the end-of-string
  behaviour.
- `diff_tools_examples.dfy` (module `DiffToolsExamples`): the outputs the
  unit tests expect, and an input that shows the end-of-string behaviour.
- `home_controller.dfy` (module `Controllers`): the class `HomeController`
  with its `left` and `right` tables (`map<string, string>` fields updated in
  place), `SubmitLeft`, `SubmitRight` and `CheckDifference`, plus request
  sequences from the unit tests applied to a fresh controller.

Strings are `seq<char>`, compared one `char` at a time as the program
compares Java `char`s. A Dafny `char` is a Unicode scalar value, while a Java
`char` is a UTF-16 code unit; the two agree on every character outside the
supplementary planes (see "## Left out").

Behaviour of the code worth knowing, including where the unit tests expect
otherwise:

- When the inner scan reaches the last index, the program adds 1 to the run
  length without looking at that position. A run that ends at the last
  position is therefore reported correctly, but a run at the next-to-last
  position is reported with the agreeing last position included: `"10"`
  against `"00"` gives `(0, 2)`. So the runs are not always spans of
  differing positions only, and two strings that differ only at position
  `n - 2` give `(n - 2, 2)`, not `(n - 2, 1)` (`LastIndexAlwaysCounted`,
  `SingleMismatch`, `BoundaryQuirkExample`).
- A submission overwrites any text already stored for the identifier. There
  is no conflict on a second create (`ResubmitScenario`), and the success
  response is `ok` with result "created".
- Texts whose decoded lengths differ give "inputs are not equal"; the unit
  test expects "inputs have different sizes".
- The program has no update (PUT) handler and no decode handler. The unit
  tests exercise both, but there is no code for them to model.

## Model

| member | source | states |
|---|---|---|
| `Decimal.NatToString` | app/services/DiffTools.java:57 | the decimal text of a number is non-empty, all digits, and has no leading zero unless it is "0" |
| `Decimal.NatToStringRoundTrip` | app/services/DiffTools.java:57 | reading the decimal text of `n` back gives `n` |
| `Decimal.NatToStringInjective` | app/services/DiffTools.java:57 | different offsets or lengths are written differently |
| `DiffTools.ScanEnd` | app/services/DiffTools.java:39-47 | the inner scan from a differing index stops at the first agreeing index or at the last index, and every index it passes differs |
| `DiffTools.FindDifferences` | app/services/DiffTools.java:31-51 | the nested loops record exactly the runs of the specification `DiffRuns`, in discovery order |
| `DiffTools.DiffString` | app/services/DiffTools.java:29-60 | the returned list has one rendered "Offset: X & Lenght: Y" entry per run of `DiffRuns`, in the same order |
| `DiffTools.RenderRunsRoundTrip` | app/services/DiffTools.java:53-58 | every entry of the rendered list reads back to the run at the same position |
| `DiffTools.RenderRunsInjective` | app/services/DiffTools.java:53-58 | different run lists give different rendered lists |
| `DiffTools.JoinAppend` | app/controllers/HomeController.java:140 | the list text grows as Java's list `toString` builds it: a further element is appended after ", " |
| `DiffTools.UnequalLengthsNoRuns` | app/services/DiffTools.java:35 | strings of different lengths give no runs |
| `DiffTools.NoRunsIffEqual` | app/services/DiffTools.java:35-50 | for strings of equal length, the run list is empty exactly when the strings are equal |
| `DiffTools.RunsFromOrdered` | app/services/DiffTools.java:36-46 | runs found from index `p` on start at or after `p`, are non-empty, end within the strings, and each ends strictly before the next begins |
| `DiffTools.RunsOrdered` | app/services/DiffTools.java:36-46 | runs have length at least 1, offset + length at most n, strictly ascending offsets, no overlap, and at least one position between consecutive runs |
| `DiffTools.RunsFromStartAtMismatch` | app/services/DiffTools.java:36-38 | every run found from `p` on starts at a differing index whose predecessor, if at or after `p`, agrees |
| `DiffTools.RunsFromInside` | app/services/DiffTools.java:39-45 | inside a run every position but the last index differs, and a run ending before the end is closed by an agreeing index that is not the last |
| `DiffTools.RunsFromCover` | app/services/DiffTools.java:36-46 | every differing index at or after `p` lies inside a run found from `p` |
| `DiffTools.RunsAreMismatchSpans` | app/services/DiffTools.java:38-45 | each run starts at a differing index preceded by an agreeing one (or at 0), differs everywhere inside except possibly at the last index, and ends at an agreeing index or at the end of the strings |
| `DiffTools.MismatchIffCovered` | app/services/DiffTools.java:36-46 | a differing index always lies in a run; an index before the last lies in a run only if it differs |
| `DiffTools.SkipAgreeing` | app/services/DiffTools.java:36-38 | agreeing positions are passed over: the scan from before them reports what the scan from after them reports |
| `DiffTools.RunClosedByMatch` | app/services/DiffTools.java:39-46 | a run closed at an agreeing interior index `e` has length `e - offset`, and the scan resumes at `e + 1` |
| `DiffTools.RunReachingEnd` | app/services/DiffTools.java:39-45 | a run whose positions differ up to the next-to-last index has length `n - offset`, taking in the last index whatever its characters |
| `DiffTools.LastIndexAlwaysCounted` | app/services/DiffTools.java:40-43 | when the next-to-last position differs and the last agrees, the last run still ends at the end of the strings |
| `DiffTools.SingleMismatch` | app/services/DiffTools.java:36-50 | strings differing only at `p` give the single run `(p, 1)`, or `(p, 2)` when `p` is the next-to-last index |
| `DiffTools.AllDifferent` | app/services/DiffTools.java:39-45 | strings differing everywhere give the single run `(0, n)` |
| `DiffTools.RenderedEmptyIffEqual` | app/services/DiffTools.java:53-58 | the rendered list is "[]" exactly when the equal-length strings are equal |
| `DiffTools.RenderRunRoundTrip` | app/services/DiffTools.java:57 | a rendered entry can be read back to its offset and length |
| `DiffTools.RenderRunInjective` | app/services/DiffTools.java:57 | different runs give different entries |
| `DiffToolsExamples.SameStringExample` | test/UnitTest.java:49 | `"00000100000"` against itself gives no runs |
| `DiffToolsExamples.DifferenceAtBeginExample` | test/UnitTest.java:58-59 | `"10000100000"` against `"00000100000"` renders as "[Offset: 0 & Lenght: 1]" |
| `DiffToolsExamples.DifferenceAtEndExample` | test/UnitTest.java:68-69 | `"00000100000"` against `"00000100001"` renders as "[Offset: 10 & Lenght: 1]" |
| `DiffToolsExamples.MultipleRunsPattern` | test/UnitTest.java:78-79 | any 40-character pair differing at 0-1, 10-12, 17-21 and 37-39 gives runs (0,2), (10,3), (17,5), (37,3) |
| `DiffToolsExamples.MultipleRunsExample` | test/UnitTest.java:78-79 | the test's 40-character strings give runs (0,2), (10,3), (17,5), (37,3), rendered "[Offset: 0 & Lenght: 2, Offset: 10 & Lenght: 3, Offset: 17 & Lenght: 5, Offset: 37 & Lenght: 3]" |
| `DiffToolsExamples.MultipleRunsRendered` | test/UnitTest.java:79 | those four runs are rendered as four entries separated by ", " inside brackets |
| `DiffToolsExamples.ListOfFour` | app/controllers/HomeController.java:140 | a four-element list is written as its elements in brackets, separated by ", " |
| `DiffToolsExamples.AllDifferentExample` | test/UnitTest.java:88-89 | `"0000000000"` against `"1111111111"` renders as "[Offset: 0 & Lenght: 10]" |
| `DiffToolsExamples.BoundaryQuirkExample` | app/services/DiffTools.java:40-43 | `"10"` against `"00"` gives the run (0, 2), rendered "[Offset: 0 & Lenght: 2]" |
| `Controllers.ValidateInput` | app/controllers/HomeController.java:44-51 | a submission is accepted exactly when the body is JSON with a textual input that passes the base64 check, and the accepted content is that input |
| `Controllers.HomeController.constructor` | app/controllers/HomeController.java:24-26 | both tables start empty |
| `Controllers.HomeController.SubmitRight` | app/controllers/HomeController.java:40-63 | "Expecting Json data", "Missing parameter [input]" or "Input is not Base64" leave both tables unchanged; otherwise `right[id]` becomes the content, overwriting any earlier value, and `left` is unchanged |
| `Controllers.HomeController.SubmitLeft` | app/controllers/HomeController.java:69-92 | the mirror image of `SubmitRight` on the left table |
| `Controllers.HomeController.CheckDifference` | app/controllers/HomeController.java:98-148 | missing input exactly when either side is absent; equal exactly when the stored texts are identical; same size exactly when they differ and their decoded texts have equal length, with the rendered run list of the decoded texts as offset; not equal otherwise; no table changes |
| `Controllers.EqualInputsScenario` | test/UnitTest.java:297-312 | the same valid text on both sides is stored on each and compares as equal |
| `Controllers.ResubmitScenario` | app/controllers/HomeController.java:81 | a second valid submission on the same side succeeds like the first and replaces it |
| `Controllers.OnlyLeftSubmittedScenario` | test/UnitTest.java:366-378 | with only the left side submitted, the comparison reports missing input |
| `Controllers.SameSizeScenario` | test/UnitTest.java:318-337 | different texts with decoded forms of equal length give "same size" with the decoded texts' run list |
| `Controllers.DifferentSizesScenario` | app/controllers/HomeController.java:143-147 | texts whose decoded forms differ in length give "inputs are not equal" |

## Left out

- `checkBase64` (app/services/DiffTools.java:67-69) is not modelled: it calls the Apache commons-codec check on the bytes of the platform charset. The controller takes it as a function argument.
- Base64 decoding and the conversion of the decoded bytes to a string with the platform-default charset (app/controllers/HomeController.java:122-127) are not modelled; the controller takes their composition as a function `decode`.
- `index()` (app/controllers/HomeController.java:32-34) returns a constant readiness message; it is not modelled.
- The web framework: reading the request body as JSON and searching it for "input" become the `Body` value; HTTP status codes, response JSON objects, routing and the 404 for unknown routes are not modelled. `MissingInput` stands for the 400 response, the other comparison results for 200.
- `Hashtable` synchronisation and concurrent requests are not modelled; each handler runs as one atomic step.
- The update (PUT), conflict and decode behaviour that the unit tests exercise has no code in the controller, so it is not modelled.
- `DiffTools.FindDifferences`: the program's `LinkedHashMap` from offset to length is a sequence of runs in insertion order. This is the same thing here because offsets strictly increase (`RunsOrdered`), so no entry is ever overwritten.
- Java's 32-bit `int` for indices and lengths is not modelled: a Java string is shorter than 2^31 characters, so no count can overflow.
- Characters outside the Basic Multilingual Plane: a Dafny `char` is a Unicode scalar value, so such a character is one `char` here and two UTF-16 units (a surrogate pair) in Java. For decoded text containing them, the lengths compared by `CheckDifference`, the same-size decision and the offsets and lengths of the runs differ from the program's; for example "😀" against "ab" is `NotEqual` here, while the program reports the same size.
