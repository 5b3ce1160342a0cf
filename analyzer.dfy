/**
 * The data of the analyzer package: one event of the `go test -json`
 * stream, the normalised outcome of one test, and the nested result map
 * (package -> test name -> outcome).
 */
module Analyzer {

  /** The three actions of the event stream that end a test. */
  const Pass: string := "pass"
  const Fail: string := "fail"
  const Skip: string := "skip"

  /**
   * One decoded line of the event stream. The timestamp is not modelled;
   * the elapsed time is carried as an opaque number and only ever copied.
   */
  datatype TestEvent = TestEvent(
    action: string,
    package: string,
    test: string,
    output: string,
    elapsed: real)

  /** The outcome kept for one test: its name, status and elapsed time. */
  datatype TestResult = TestResult(name: string, status: string, elapsed: real)

  /** Package -> test name -> outcome. */
  type ResultMap = map<string, map<string, TestResult>>

  predicate IsTerminal(action: string) {
    action == Pass || action == Fail || action == Skip
  }

  /** The entry a terminal event writes for its test. */
  function ResultOf(e: TestEvent): TestResult {
    TestResult(e.test, e.action, e.elapsed)
  }

  /** Every stored entry is named by its key and has a terminal status. */
  ghost predicate WellFormed(m: ResultMap) {
    forall p, t :: p in m && t in m[p] ==> m[p][t].name == t && IsTerminal(m[p][t].status)
  }
}
