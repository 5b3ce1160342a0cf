# Dependency impact analyzer: result parsing and baseline/experiment diff

This project models, in Dafny, the result-analysis package of a tool that
checks whether a candidate version of a Go module breaks downstream
consumers. The tool runs each consumer's tests twice: once against the
published module (the baseline) and once against the candidate (the
experiment). The analyzer package turns each `go test -json` event stream
into a result map (package → test name → outcome). It then diffs the two
maps, anchored on the baseline.

- `analyzer.dfy` (module `Analyzer`): the event, the per-test result, the
  result map, the terminal actions `pass`/`fail`/`skip`.
- `parse.dfy` (module `Parsing`): `ParseTestOutput`, the scanner loop, as a
  method with a `while` loop over the scanned lines. Its loop invariant ties
  the map being built to `Parse`, a left fold of `Apply` (one loop
  iteration). The lemmas then describe `Parse` declaratively:
  - its keys are the packages the stream names;
  - each entry is the one written by the last terminal event for that test.
- `compare.dfy` (module `Comparison`): `CompareResults` as two methods,
  one per loop of the source:
  - `RegressionPass` reports missing packages, missing tests and
    regressions;
  - `FixPass` reports fixes.

  Go walks maps in an unspecified order, so each loop picks its next key
  with an arbitrary choice (`:|`). The contract `IsReportOf` holds for
  every such order. It fixes the set of lines, forbids repeats, puts
  every fix after every first-pass line, and makes each count equal both
  to its number of lines and to its number of status transitions.
- `impact.dfy` (module `Impact`): the two operations composed as
  main.go composes them for one consumer. A failed parse is logged and the
  run goes on with a nil map, which Go reads as empty, so `Compared` gives
  the empty map for a failed stream. These lemmas read a report back in
  terms of the events of the two streams, failed streams included.
- `wrappers.dfy` (module `Wrappers`): `Option` and `Result`.

An input line that cannot be decoded is `None` in `Stream.lines`.
`Stream.failed` says that the scanner stopped on a read error rather than
at end of input.

## Model

| member | source | states |
|---|---|---|
| `Parsing.ParseTestOutput` | analyzer/analyzer.go:32-72 | fails exactly when the stream reports a read error, and then returns no map; otherwise returns the map `Parse` builds from all scanned lines (loop invariant over the processed prefix) |
| `Parsing.LastTerminal` | analyzer/analyzer.go:52-59 | returns an index whose line records a terminal pass/fail/skip event of the test, with no such line after it; returns None exactly when no line records one |
| `Parsing.IgnoredLine` | analyzer/analyzer.go:36-45 | an undecodable line, or one with an empty package, leaves the map unchanged |
| `Parsing.RegisterOnly` | analyzer/analyzer.go:47-65 | a decodable line with a package but no terminal test outcome (package-level event, or run/output/pause/cont) only adds its package as a key, with an empty inner map if it is new; every existing inner map is unchanged |
| `Parsing.TerminalOverwrites` | analyzer/analyzer.go:52-59 | a terminal test event overwrites the test's entry with its name, action and elapsed time, whatever was stored before |
| `Parsing.ParseKeys` | analyzer/analyzer.go:43-49 | the keys of the result are exactly the packages named by decodable lines with a non-empty package |
| `Parsing.ParseEntry` | analyzer/analyzer.go:47-59 | a (package, test) entry exists exactly when some line records a terminal event for it, and the entry equals the result of the last such line |
| `Parsing.ParseWellFormed` | analyzer/analyzer.go:51-59 | every stored entry is named by its key and has status pass, fail or skip |
| `Parsing.ParseKeysGrow` | analyzer/analyzer.go:36-66 | reading more lines never removes a package key |
| `Parsing.LastTerminalWins` | analyzer/analyzer.go:52-59 | `fail` followed by `pass` for the same test leaves status `pass` |
| `Comparison.CompareResults` | analyzer/analyzer.go:75-116 | the report lists each missing package, missing test, regression and fix exactly once and nothing else; every fix comes after all first-pass lines; the regression and fix counts equal both the number of such lines and the number of pass→fail and fail→pass tests present on both sides |
| `Comparison.RegressionPass` | analyzer/analyzer.go:79-97 | the first loop's lines, without repeats, are exactly the missing packages, missing tests and pass→fail tests; its counter equals the number of regression lines and of pass→fail tests; it writes no fix line |
| `Comparison.FixPass` | analyzer/analyzer.go:100-112 | the second loop's lines, without repeats, are exactly the fail→pass tests present on both sides; its counter equals their number |
| `Comparison.ReportsArePermutations` | analyzer/analyzer.go:80-112 | whatever order the maps are walked in, any two reports for the same inputs are permutations of each other, with equal counts |
| `Comparison.CompareWithSelf` | analyzer/analyzer.go:75-116 | comparing a map with itself gives no lines and zero regressions and fixes |
| `Comparison.RegressionsMirrorFixes` | analyzer/analyzer.go:92-110 | the regressions of (baseline, experiment) are exactly the fixes of (experiment, baseline) and vice versa, with swapped counts |
| `Comparison.BaselineAnchored` | analyzer/analyzer.go:80-106 | every line names a baseline package, and every per-test line names a baseline test of a package present in the experiment; experiment-only entries never appear |
| `Comparison.MissingPackageAlone` | analyzer/analyzer.go:81-85 | a baseline package absent from the experiment gives exactly one Missing Package line, no other line about it, and no regression or fix |
| `Comparison.MissingTestAlone` | analyzer/analyzer.go:86-91 | a baseline test absent from a present experiment package gives exactly one Test Missing line and is neither a regression nor a fix |
| `Comparison.SharedTestClassified` | analyzer/analyzer.go:92-110 | a test on both sides is never missing; it is a regression iff pass→fail and a fix iff fail→pass; equal statuses and any transition involving skip give no line |
| `Comparison.OneRegressionOneFix` | analyzer/analyzer.go:92-115 | baseline {pkgX: t1 pass, t2 fail} against experiment {pkgX: t1 fail, t2 pass} gives exactly the lines [REGRESSION pkgX/t1, FIX pkgX/t2] and counts 1 and 1 |
| `Impact.AnalyzeConsumer` | main.go:83-117 | parses both streams, substitutes the empty map for a failed parse, and compares; the report satisfies the comparison contract on those two maps |
| `Impact.StreamTransitions` | main.go:83-117 | a test is a regression iff both streams were read to the end and its last terminal event is pass in the baseline stream and fail in the experiment stream, and a fix iff the opposite; a failed parse on either side hides every transition |
| `Impact.StreamMissingTest` | main.go:83-117 | a test is reported missing iff both streams were read to the end, the baseline stream has a terminal event for it, and the experiment stream names its package but has none for it |
| `Impact.StreamMissingPackage` | main.go:83-117 | a package is reported missing iff the baseline stream was read to the end and names it, and the experiment stream failed or does not name it; a failed experiment parse reports every baseline package missing |
| `Impact.FailedBaselineReportsNothing` | main.go:83-86 | after a failed baseline parse the report has no lines and counts 0 and 0, whatever the experiment stream holds |

## Left out

- runner/runner.go and runner/exec.go (git clone with its three-attempt retry, reset, `go mod edit -replace`, `go mod tidy`, `go test -json`) are subprocess and filesystem effects; they are not modelled.
- main.go's flag parsing, configuration loading, cloning, reset, injection and printing are not modelled. Only its parse-and-compare steps appear, as `Impact.AnalyzeConsumer`. The nil map that main.go compares after a failed parse is modelled as the empty map, which is how Go reads it.
- JSON decoding and `bufio.Scanner` mechanics are abstracted. A line is either a decoded `TestEvent` or `None`. Any scanner error, including an over-long line, is the `failed` flag.
- The `Time` field is dropped. `Elapsed` is a `real` that is only copied, never computed with.
- The text of the diff lines and of the summary line is not modelled. A line is a `Finding` constructor, and the summary is the report's two counts, which close it.
- Comparison.CompareResults: does not state that the lines about one package are adjacent. The source writes them package by package, but the contract only fixes the set of lines, the absence of repeats, and the fixes coming last.
- The findings do not carry the two statuses compared, because Regression always means pass→fail and Fix always means fail→pass.
- Package-level events (empty test name) are not aggregated, as in the source. Their `pass`/`fail` branch in analyzer.go has an empty body. Such events only register the package.
- The code does not sort: each pass walks the maps in Go's unspecified order, and the model does the same. The order-independence lemma covers what does not depend on the order.
- Transitions that involve `skip` produce no line in the code, and the model keeps that.
