/**
 * The two analyzer operations composed as main.go composes them for one
 * consumer: parse the baseline stream, parse the experiment stream, and
 * compare the two maps. A parse that fails is logged and the run goes on
 * with a nil map, which Go reads as the empty map. These lemmas read a
 * report back in terms of the events of the two streams.
 */
module Impact {
  import opened Wrappers
  import opened Analyzer
  import opened Parsing
  import opened Comparison

  /** The map handed to CompareResults: the parse, or empty after a read error. */
  function Compared(s: Stream): ResultMap {
    if s.failed then map[] else Parse(s.lines)
  }

  /** The action of the last terminal event of test `t` in package `p`, if any. */
  function FinalAction(lines: seq<Option<TestEvent>>, p: string, t: string): Option<string> {
    match LastTerminal(lines, p, t)
    case None => None
    case Some(k) => Some(lines[k].value.action)
  }

  /**
   * Parse both streams, falling back to the empty map when a parse fails,
   * and compare (main.go, the parse and compare steps for one consumer).
   */
  method AnalyzeConsumer(base: Stream, exp: Stream) returns (report: Report)
    ensures IsReportOf(Compared(base), Compared(exp), report)
  {
    var baseResults: ResultMap := map[];
    var parsed := ParseTestOutput(base);
    if parsed.Success? {
      baseResults := parsed.value;
    }
    var expResults: ResultMap := map[];
    parsed := ParseTestOutput(exp);
    if parsed.Success? {
      expResults := parsed.value;
    }
    report := CompareResults(baseResults, expResults);
  }

  /**
   * A test is reported as a regression exactly when both streams were read
   * to the end and its last terminal event is `pass` in the baseline stream
   * and `fail` in the experiment stream; as a fix exactly in the opposite
   * case. A failed parse on either side hides every transition.
   */
  lemma StreamTransitions(base: Stream, exp: Stream, r: Report, p: string, t: string)
    requires IsReportOf(Compared(base), Compared(exp), r)
    ensures Regression(p, t) in r.findings <==>
      && !base.failed && !exp.failed
      && FinalAction(base.lines, p, t) == Some(Pass) && FinalAction(exp.lines, p, t) == Some(Fail)
    ensures Fix(p, t) in r.findings <==>
      && !base.failed && !exp.failed
      && FinalAction(base.lines, p, t) == Some(Fail) && FinalAction(exp.lines, p, t) == Some(Pass)
  {
    ParseEntry(base.lines, p, t);
    ParseEntry(exp.lines, p, t);
  }

  /**
   * A test is reported missing exactly when both streams were read to the
   * end, the baseline stream has a terminal event for it, and the
   * experiment stream names its package but has no terminal event for it.
   */
  lemma StreamMissingTest(base: Stream, exp: Stream, r: Report, p: string, t: string)
    requires IsReportOf(Compared(base), Compared(exp), r)
    ensures MissingTest(p, t) in r.findings <==>
      && !base.failed && !exp.failed
      && FinalAction(base.lines, p, t).Some?
      && p in Packages(exp.lines) && FinalAction(exp.lines, p, t).None?
  {
    ParseEntry(base.lines, p, t);
    ParseEntry(exp.lines, p, t);
    ParseKeys(exp.lines);
  }

  /**
   * A package is reported missing exactly when the baseline stream was read
   * to the end and names it, and the experiment stream either failed or
   * does not name it: a failed experiment parse reports every baseline
   * package missing.
   */
  lemma StreamMissingPackage(base: Stream, exp: Stream, r: Report, p: string)
    requires IsReportOf(Compared(base), Compared(exp), r)
    ensures MissingPackage(p) in r.findings <==>
      !base.failed && p in Packages(base.lines) && (exp.failed || p !in Packages(exp.lines))
  {
    ParseKeys(base.lines);
    ParseKeys(exp.lines);
  }

  /**
   * A failed baseline parse yields an empty report with zero regressions
   * and zero fixes, whatever the experiment stream holds.
   */
  lemma FailedBaselineReportsNothing(base: Stream, exp: Stream, r: Report)
    requires base.failed
    requires IsReportOf(Compared(base), Compared(exp), r)
    ensures r.findings == [] && r.regressions == 0 && r.fixes == 0
  {
    forall f ensures multiset(r.findings)[f] == 0 {
      Multiplicity(r.findings, f);
    }
    assert multiset(r.findings) == multiset{};
    assert |r.findings| == |multiset(r.findings)|;
    assert Transitions(Compared(base), Compared(exp), Pass, Fail) == {};
    assert Transitions(Compared(base), Compared(exp), Fail, Pass) == {};
  }
}
