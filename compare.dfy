/**
 * CompareResults: the baseline-anchored diff of two result maps. A first
 * pass over the baseline reports missing packages, missing tests and
 * pass -> fail regressions; a second pass reports fail -> pass fixes; the
 * two counts close the report.
 */
module Comparison {
  import opened Analyzer

  /** One line of the diff, without its text. */
  datatype Finding =
    | MissingPackage(pkg: string)
    | MissingTest(pkg: string, test: string)
    | Regression(pkg: string, test: string)
    | Fix(pkg: string, test: string)

  /** The diff lines in the order they were written, and the summary counts. */
  datatype Report = Report(findings: seq<Finding>, regressions: nat, fixes: nat)

  /** Test `t` of package `p` is in both maps, with status `from` then `to`. */
  predicate Changed(b: ResultMap, e: ResultMap, p: string, t: string, from: string, to: string) {
    && p in b && p in e && t in b[p] && t in e[p]
    && b[p][t].status == from && e[p][t].status == to
  }

  /** The (package, test) pairs that went from `from` to `to`. */
  ghost function Transitions(b: ResultMap, e: ResultMap, from: string, to: string): set<(string, string)> {
    set p, t | p in b && t in b[p] && Changed(b, e, p, t, from, to) :: (p, t)
  }

  /** The lines of the first pass, as a classification of each finding. */
  ghost predicate FirstPassFinding(b: ResultMap, e: ResultMap, f: Finding) {
    match f
    case MissingPackage(p) => p in b && p !in e
    case MissingTest(p, t) => p in b && p in e && t in b[p] && t !in e[p]
    case Regression(p, t) => Changed(b, e, p, t, Pass, Fail)
    case Fix(_, _) => false
  }

  /** The lines of the second pass. */
  ghost predicate FixFinding(b: ResultMap, e: ResultMap, f: Finding) {
    f.Fix? && Changed(b, e, f.pkg, f.test, Fail, Pass)
  }

  predicate NoDuplicates(s: seq<Finding>) {
    forall i, j :: 0 <= i < j < |s| ==> s[i] != s[j]
  }

  /** The number of regression lines in a diff. */
  function RegressionLines(s: seq<Finding>): nat
    decreases |s|
  {
    if s == [] then 0
    else (if s[0].Regression? then 1 else 0) + RegressionLines(s[1..])
  }

  /** The number of fix lines in a diff. */
  function FixLines(s: seq<Finding>): nat
    decreases |s|
  {
    if s == [] then 0
    else (if s[0].Fix? then 1 else 0) + FixLines(s[1..])
  }

  /**
   * What any run of CompareResults on `b` and `e` produces, whatever order
   * the maps are walked in: each finding of either pass exactly once,
   * nothing else, every fix after every first-pass line, and counts that
   * are both the number of such lines and the number of such transitions.
   */
  ghost predicate IsReportOf(b: ResultMap, e: ResultMap, r: Report) {
    && NoDuplicates(r.findings)
    && (forall f :: f in r.findings <==> FirstPassFinding(b, e, f) || FixFinding(b, e, f))
    && (forall i, j :: 0 <= i < j < |r.findings| && r.findings[i].Fix? ==> r.findings[j].Fix?)
    && r.regressions == RegressionLines(r.findings) == |Transitions(b, e, Pass, Fail)|
    && r.fixes == FixLines(r.findings) == |Transitions(b, e, Fail, Pass)|
  }

  /**
   * analyzer.go's CompareResults: the regression pass, then the fix pass,
   * then the summary counts.
   */
  method CompareResults(baseline: ResultMap, experiment: ResultMap) returns (report: Report)
    ensures IsReportOf(baseline, experiment, report)
  {
    var diff, regressions := RegressionPass(baseline, experiment);
    var fixLines, fixes := FixPass(baseline, experiment);
    JoinCounts(diff, fixLines);
    JoinOrder(diff, fixLines);
    report := Report(diff + fixLines, regressions, fixes);
  }

  /**
   * The first loop of CompareResults. Go walks maps in an unspecified
   * order; each loop here picks its next key arbitrarily.
   */
  method RegressionPass(baseline: ResultMap, experiment: ResultMap) returns (diff: seq<Finding>, regressions: nat)
    ensures NoDuplicates(diff)
    ensures forall f :: f in diff <==> FirstPassFinding(baseline, experiment, f)
    ensures regressions == RegressionLines(diff) == |Transitions(baseline, experiment, Pass, Fail)|
    // Implied by the classification above; stated for joining the two passes.
    ensures forall f :: f in diff ==> !f.Fix?
    ensures FixLines(diff) == 0
  {
    diff, regressions := [], 0;
    ghost var regressed: set<(string, string)> := {};
    var pending := baseline.Keys;
    while pending != {}
      invariant pending <= baseline.Keys
      invariant NoDuplicates(diff)
      invariant forall f :: f in diff <==> (FirstPassFinding(baseline, experiment, f) && f.pkg !in pending)
      invariant forall pr :: pr in regressed <==>
        (Changed(baseline, experiment, pr.0, pr.1, Pass, Fail) && pr.0 !in pending)
      invariant regressions == RegressionLines(diff) == |regressed|
      invariant FixLines(diff) == 0
      decreases pending
    {
      var pkg :| pkg in pending;
      pending := pending - {pkg};
      if pkg !in experiment {
        JoinCounts(diff, [MissingPackage(pkg)]);
        diff := diff + [MissingPackage(pkg)];
        continue;
      }
      var tests, expTests := baseline[pkg], experiment[pkg];
      var names := tests.Keys;
      while names != {}
        invariant names <= tests.Keys
        invariant NoDuplicates(diff)
        invariant forall f :: f in diff <==> (FirstPassFinding(baseline, experiment, f) &&
          (f.pkg !in pending + {pkg} || (f.pkg == pkg && !f.MissingPackage? && f.test !in names)))
        invariant forall pr :: pr in regressed <==> (Changed(baseline, experiment, pr.0, pr.1, Pass, Fail) &&
          (pr.0 !in pending + {pkg} || (pr.0 == pkg && pr.1 !in names)))
        invariant regressions == RegressionLines(diff) == |regressed|
        invariant FixLines(diff) == 0
        decreases names
      {
        var name :| name in names;
        names := names - {name};
        if name !in expTests {
          JoinCounts(diff, [MissingTest(pkg, name)]);
          diff := diff + [MissingTest(pkg, name)];
          continue;
        }
        if tests[name].status == Pass && expTests[name].status == Fail {
          JoinCounts(diff, [Regression(pkg, name)]);
          diff := diff + [Regression(pkg, name)];
          regressions := regressions + 1;
          regressed := regressed + {(pkg, name)};
        }
      }
    }
    assert regressed == Transitions(baseline, experiment, Pass, Fail);
  }

  /** The second loop of CompareResults: the fix lines, in the order written. */
  method FixPass(baseline: ResultMap, experiment: ResultMap) returns (lines: seq<Finding>, fixes: nat)
    ensures NoDuplicates(lines)
    ensures forall f :: f in lines <==> FixFinding(baseline, experiment, f)
    ensures fixes == FixLines(lines) == |Transitions(baseline, experiment, Fail, Pass)|
    // Implied by the classification above; stated for joining the two passes.
    ensures forall f :: f in lines ==> f.Fix?
    ensures RegressionLines(lines) == 0
  {
    lines, fixes := [], 0;
    ghost var fixed: set<(string, string)> := {};
    var pending := baseline.Keys;
    while pending != {}
      invariant pending <= baseline.Keys
      invariant NoDuplicates(lines)
      invariant forall f :: f in lines <==> (FixFinding(baseline, experiment, f) && f.pkg !in pending)
      invariant forall pr :: pr in fixed <==>
        (Changed(baseline, experiment, pr.0, pr.1, Fail, Pass) && pr.0 !in pending)
      invariant fixes == FixLines(lines) == |fixed|
      invariant RegressionLines(lines) == 0
      decreases pending
    {
      var pkg :| pkg in pending;
      pending := pending - {pkg};
      if pkg !in experiment { continue; }
      var tests, expTests := baseline[pkg], experiment[pkg];
      var names := tests.Keys;
      while names != {}
        invariant names <= tests.Keys
        invariant NoDuplicates(lines)
        invariant forall f :: f in lines <==> (FixFinding(baseline, experiment, f) &&
          (f.pkg !in pending + {pkg} || (f.pkg == pkg && f.test !in names)))
        invariant forall pr :: pr in fixed <==> (Changed(baseline, experiment, pr.0, pr.1, Fail, Pass) &&
          (pr.0 !in pending + {pkg} || (pr.0 == pkg && pr.1 !in names)))
        invariant fixes == FixLines(lines) == |fixed|
        invariant RegressionLines(lines) == 0
        decreases names
      {
        var name :| name in names;
        names := names - {name};
        if name !in expTests { continue; }
        if tests[name].status == Fail && expTests[name].status == Pass {
          JoinCounts(lines, [Fix(pkg, name)]);
          lines := lines + [Fix(pkg, name)];
          fixes := fixes + 1;
          fixed := fixed + {(pkg, name)};
        }
      }
    }
    assert fixed == Transitions(baseline, experiment, Fail, Pass);
  }

  /** Joining the two passes: line counts add up, and no line repeats. */
  lemma {:induction false} JoinCounts(s: seq<Finding>, t: seq<Finding>)
    ensures RegressionLines(s + t) == RegressionLines(s) + RegressionLines(t)
    ensures FixLines(s + t) == FixLines(s) + FixLines(t)
    decreases |s|
  {
    if s == [] {
      assert s + t == t;
    } else {
      assert (s + t)[1..] == s[1..] + t;
      JoinCounts(s[1..], t);
    }
  }

  /** The first-pass lines followed by the fix lines: no repeats, fixes last. */
  lemma JoinOrder(s: seq<Finding>, t: seq<Finding>)
    requires NoDuplicates(s) && NoDuplicates(t)
    requires forall f :: f in s ==> !f.Fix?
    requires forall f :: f in t ==> f.Fix?
    ensures NoDuplicates(s + t)
    ensures forall i, j :: 0 <= i < j < |s + t| && (s + t)[i].Fix? ==> (s + t)[j].Fix?
  {
    var u := s + t;
    forall i, j | 0 <= i < j < |u| ensures u[i] != u[j] {
      if i < |s| && |s| <= j {
        assert u[i] in s && u[j] in t;
      } else if |s| <= i {
        assert u[i] == t[i - |s|] && u[j] == t[j - |s|];
      }
    }
    forall k | 0 <= k < |s| ensures !u[k].Fix? {
      assert u[k] == s[k];
    }
    forall j | |s| <= j < |u| ensures u[j].Fix? {
      assert u[j] == t[j - |s|];
    }
  }

  // ---------------------------------------------------------------------
  // Properties of the comparison
  // ---------------------------------------------------------------------

  /** In a diff without repeats every line occurs exactly once. */
  lemma {:induction false} Multiplicity(s: seq<Finding>, f: Finding)
    requires NoDuplicates(s)
    ensures multiset(s)[f] == if f in s then 1 else 0
    decreases |s|
  {
    if s != [] {
      var init, last := s[..|s| - 1], s[|s| - 1];
      assert s == init + [last];
      Multiplicity(init, f);
      if f == last {
        assert f !in init by {
          forall k | 0 <= k < |init| ensures init[k] != f {
            assert init[k] == s[k];
          }
        }
      }
    }
  }

  /**
   * Order independence: whatever order the two maps are walked in, any two
   * reports hold the same lines (as a multiset) and the same counts.
   */
  lemma ReportsArePermutations(b: ResultMap, e: ResultMap, r1: Report, r2: Report)
    requires IsReportOf(b, e, r1) && IsReportOf(b, e, r2)
    ensures multiset(r1.findings) == multiset(r2.findings)
    ensures r1.regressions == r2.regressions && r1.fixes == r2.fixes
  {
    forall f ensures multiset(r1.findings)[f] == multiset(r2.findings)[f] {
      Multiplicity(r1.findings, f);
      Multiplicity(r2.findings, f);
    }
  }

  /** Comparing a map with itself reports nothing and counts zero. */
  lemma CompareWithSelf(m: ResultMap, r: Report)
    requires IsReportOf(m, m, r)
    ensures r.findings == [] && r.regressions == 0 && r.fixes == 0
  {
    assert Pass != Fail by { assert Pass[0] != Fail[0]; }
    assert Transitions(m, m, Pass, Fail) == {};
    assert Transitions(m, m, Fail, Pass) == {};
    forall f ensures multiset(r.findings)[f] == 0 {
      Multiplicity(r.findings, f);
    }
    assert multiset(r.findings) == multiset{};
    assert |r.findings| == |multiset(r.findings)|;
  }

  /**
   * Regressions from `b` to `e` are exactly the fixes from `e` to `b`:
   * the same tests, reported as the opposite kind, with swapped counts.
   */
  lemma RegressionsMirrorFixes(b: ResultMap, e: ResultMap, r1: Report, r2: Report)
    requires IsReportOf(b, e, r1) && IsReportOf(e, b, r2)
    ensures forall p, t :: Regression(p, t) in r1.findings <==> Fix(p, t) in r2.findings
    ensures forall p, t :: Fix(p, t) in r1.findings <==> Regression(p, t) in r2.findings
    ensures r1.regressions == r2.fixes && r1.fixes == r2.regressions
  {
    assert Transitions(b, e, Pass, Fail) == Transitions(e, b, Fail, Pass);
    assert Transitions(b, e, Fail, Pass) == Transitions(e, b, Pass, Fail);
  }

  /** Every line is about a package, and a test, of the baseline. */
  lemma BaselineAnchored(b: ResultMap, e: ResultMap, r: Report, f: Finding)
    requires IsReportOf(b, e, r) && f in r.findings
    ensures f.pkg in b
    ensures !f.MissingPackage? ==> f.test in b[f.pkg] && f.pkg in e
  {
  }

  /**
   * A baseline package missing from the experiment gives exactly one
   * "Missing Package" line and no other line about that package.
   */
  lemma MissingPackageAlone(b: ResultMap, e: ResultMap, r: Report, p: string)
    requires IsReportOf(b, e, r)
    requires p in b && p !in e
    ensures multiset(r.findings)[MissingPackage(p)] == 1
    ensures forall f :: f in r.findings && f.pkg == p ==> f == MissingPackage(p)
    ensures forall pr :: pr in Transitions(b, e, Pass, Fail) + Transitions(b, e, Fail, Pass) ==> pr.0 != p
  {
    Multiplicity(r.findings, MissingPackage(p));
  }

  /**
   * A baseline test missing from a present experiment package gives exactly
   * one "Test Missing" line, and is neither a regression nor a fix.
   */
  lemma MissingTestAlone(b: ResultMap, e: ResultMap, r: Report, p: string, t: string)
    requires IsReportOf(b, e, r)
    requires p in b && p in e && t in b[p] && t !in e[p]
    ensures multiset(r.findings)[MissingTest(p, t)] == 1
    ensures Regression(p, t) !in r.findings && Fix(p, t) !in r.findings
    ensures (p, t) !in Transitions(b, e, Pass, Fail) + Transitions(b, e, Fail, Pass)
  {
    Multiplicity(r.findings, MissingTest(p, t));
  }

  /**
   * A test present on both sides is reported only for pass -> fail and
   * fail -> pass; any other pair of statuses (equal ones, or any involving
   * skip) gives no line.
   */
  lemma SharedTestClassified(b: ResultMap, e: ResultMap, r: Report, p: string, t: string)
    requires IsReportOf(b, e, r)
    requires p in b && p in e && t in b[p] && t in e[p]
    ensures MissingTest(p, t) !in r.findings
    ensures Regression(p, t) in r.findings <==> b[p][t].status == Pass && e[p][t].status == Fail
    ensures Fix(p, t) in r.findings <==> b[p][t].status == Fail && e[p][t].status == Pass
    ensures b[p][t].status == e[p][t].status || b[p][t].status == Skip || e[p][t].status == Skip ==>
      forall f :: f in r.findings ==> f.pkg != p || f.MissingPackage? || f.test != t
  {
  }

  /**
   * One regression and one fix in the same package: baseline
   * {pkgX: t1 pass, t2 fail} against experiment {pkgX: t1 fail, t2 pass}
   * gives the regression line, then the fix line, and counts 1 and 1.
   */
  lemma OneRegressionOneFix(r: Report)
    requires IsReportOf(
      map["pkgX" := map["t1" := TestResult("t1", Pass, 0.0), "t2" := TestResult("t2", Fail, 0.0)]],
      map["pkgX" := map["t1" := TestResult("t1", Fail, 0.0), "t2" := TestResult("t2", Pass, 0.0)]],
      r)
    ensures r.findings == [Regression("pkgX", "t1"), Fix("pkgX", "t2")]
    ensures r.regressions == 1 && r.fixes == 1
  {
    var b := map["pkgX" := map["t1" := TestResult("t1", Pass, 0.0), "t2" := TestResult("t2", Fail, 0.0)]];
    var e := map["pkgX" := map["t1" := TestResult("t1", Fail, 0.0), "t2" := TestResult("t2", Pass, 0.0)]];
    assert Pass != Fail by { assert Pass[0] != Fail[0]; }
    var expected := [Regression("pkgX", "t1"), Fix("pkgX", "t2")];
    assert Transitions(b, e, Pass, Fail) == {("pkgX", "t1")} by {
      assert Changed(b, e, "pkgX", "t1", Pass, Fail);
    }
    assert Transitions(b, e, Fail, Pass) == {("pkgX", "t2")} by {
      assert Changed(b, e, "pkgX", "t2", Fail, Pass);
    }
    assert RegressionLines(expected) == 1 && FixLines(expected) == 1 by {
      assert expected[1..] == [Fix("pkgX", "t2")];
    }
    forall f ensures f in expected <==> FirstPassFinding(b, e, f) || FixFinding(b, e, f) {
      if FirstPassFinding(b, e, f) || FixFinding(b, e, f) {
        assert f.pkg == "pkgX";
      }
    }
    ReportsArePermutations(b, e, r, Report(expected, 1, 1));
    assert |r.findings| == |multiset(r.findings)| == 2;
    assert r.findings[0] in expected && r.findings[1] in expected;
  }
}
