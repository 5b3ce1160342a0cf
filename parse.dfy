/**
 * ParseTestOutput: the scanner loop that folds the `go test -json` event
 * stream into a result map.
 */
module Parsing {
  import opened Wrappers
  import opened Analyzer

  /**
   * What the scanner delivers: the lines it read, each either decoded or
   * undecodable (None), and whether the stream ended with a read error
   * instead of end-of-input.
   */
  datatype Stream = Stream(lines: seq<Option<TestEvent>>, failed: bool)

  /** The only failure of the parse: the stream itself could not be read. */
  datatype ParseError = StreamReadError

  /** A line that names its package (decodes, and its package is not empty). */
  predicate Registers(line: Option<TestEvent>) {
    line.Some? && line.value.package != ""
  }

  /** A line that records a terminal outcome of test `t` in package `p`. */
  predicate Records(line: Option<TestEvent>, p: string, t: string) {
    && Registers(line)
    && line.value.package == p
    && line.value.test == t
    && t != ""
    && IsTerminal(line.value.action)
  }

  /** The effect of one iteration of the scanner loop on the map. */
  function Apply(m: ResultMap, line: Option<TestEvent>): ResultMap {
    if !Registers(line) then m
    else
      var e := line.value;
      var tests := if e.package in m then m[e.package] else map[];
      if e.test != "" && IsTerminal(e.action) then
        m[e.package := tests[e.test := ResultOf(e)]]
      else
        m[e.package := tests]
  }

  /** The map the loop has built after the given lines. */
  function Parse(lines: seq<Option<TestEvent>>): ResultMap
    decreases |lines|
  {
    if lines == [] then map[]
    else Apply(Parse(lines[..|lines| - 1]), lines[|lines| - 1])
  }

  /** The packages named by some line of the stream. */
  ghost function Packages(lines: seq<Option<TestEvent>>): set<string> {
    set i | 0 <= i < |lines| && Registers(lines[i]) :: lines[i].value.package
  }

  /** The index of the last line recording a terminal outcome of `t` in `p`. */
  function LastTerminal(lines: seq<Option<TestEvent>>, p: string, t: string): (k: Option<nat>)
    ensures k.Some? ==> k.value < |lines| && Records(lines[k.value], p, t)
    ensures k.Some? ==> forall j :: k.value < j < |lines| ==> !Records(lines[j], p, t)
    ensures k.None? ==> forall j :: 0 <= j < |lines| ==> !Records(lines[j], p, t)
    decreases |lines|
  {
    if lines == [] then None
    else if Records(lines[|lines| - 1], p, t) then Some(|lines| - 1)
    else LastTerminal(lines[..|lines| - 1], p, t)
  }

  /**
   * The scanner loop (analyzer.go, ParseTestOutput). On a read error the
   * partial map is dropped and only the error is returned.
   */
  method ParseTestOutput(stream: Stream) returns (r: Result<ResultMap, ParseError>)
    ensures r.Failure? <==> stream.failed
    ensures r.Success? ==> r.value == Parse(stream.lines)
  {
    var results: ResultMap := map[];
    var i := 0;
    while i < |stream.lines|
      invariant 0 <= i <= |stream.lines|
      invariant results == Parse(stream.lines[..i])
    {
      var line := stream.lines[i];
      assert stream.lines[..i + 1][..i] == stream.lines[..i];
      if line.Some? {
        var event := line.value;
        if event.package != "" {
          if event.package !in results {
            results := results[event.package := map[]];
          }
          if event.test != "" {
            if event.action == Pass || event.action == Fail || event.action == Skip {
              results := results[event.package := results[event.package][event.test := ResultOf(event)]];
            }
          }
        }
      }
      i := i + 1;
    }
    assert stream.lines[..i] == stream.lines;
    if stream.failed {
      return Failure(StreamReadError);
    }
    return Success(results);
  }

  // ---------------------------------------------------------------------
  // Properties of the parse
  // ---------------------------------------------------------------------

  lemma PackagesSnoc(lines: seq<Option<TestEvent>>, line: Option<TestEvent>)
    ensures Packages(lines + [line])
         == Packages(lines) + (if Registers(line) then {line.value.package} else {})
  {
    var s := lines + [line];
    forall p | p in Packages(s)
      ensures p in Packages(lines) + (if Registers(line) then {line.value.package} else {})
    {
      var i :| 0 <= i < |s| && Registers(s[i]) && s[i].value.package == p;
      if i < |lines| {
        assert lines[i] == s[i];
      }
    }
    forall p | p in Packages(lines)
      ensures p in Packages(s)
    {
      var i :| 0 <= i < |lines| && Registers(lines[i]) && lines[i].value.package == p;
      assert s[i] == lines[i];
    }
    if Registers(line) {
      assert s[|lines|] == line;
    }
  }

  /** A line that fails to decode, or has no package, changes nothing. */
  lemma IgnoredLine(lines: seq<Option<TestEvent>>, line: Option<TestEvent>)
    requires !Registers(line)
    ensures Parse(lines + [line]) == Parse(lines)
  {
  }

  /**
   * A decodable line with a package that records no terminal test outcome
   * (a package-level event, or a run/output/pause/cont action) only makes
   * its package a key: no test entry is added or changed.
   */
  lemma RegisterOnly(lines: seq<Option<TestEvent>>, e: TestEvent)
    requires e.package != ""
    requires e.test == "" || !IsTerminal(e.action)
    ensures Parse(lines + [Some(e)]).Keys == Parse(lines).Keys + {e.package}
    ensures forall p :: p in Parse(lines) ==> Parse(lines + [Some(e)])[p] == Parse(lines)[p]
    ensures e.package !in Parse(lines) ==> Parse(lines + [Some(e)])[e.package] == map[]
  {
  }

  /** A terminal test event overwrites whatever was stored for its test. */
  lemma TerminalOverwrites(lines: seq<Option<TestEvent>>, e: TestEvent)
    requires e.package != "" && e.test != "" && IsTerminal(e.action)
    ensures e.package in Parse(lines + [Some(e)])
    ensures Parse(lines + [Some(e)])[e.package][e.test] == TestResult(e.test, e.action, e.elapsed)
  {
  }

  /** The keys of the result are exactly the packages named by the stream. */
  lemma {:induction false} ParseKeys(lines: seq<Option<TestEvent>>)
    ensures Parse(lines).Keys == Packages(lines)
    decreases |lines|
  {
    if lines != [] {
      var init, last := lines[..|lines| - 1], lines[|lines| - 1];
      assert lines == init + [last];
      ParseKeys(init);
      PackagesSnoc(init, last);
    }
  }

  /**
   * A test has an entry exactly when some line records a terminal outcome
   * for it, and the entry is the one written by the last such line.
   */
  lemma {:induction false} ParseEntry(lines: seq<Option<TestEvent>>, p: string, t: string)
    ensures (p in Parse(lines) && t in Parse(lines)[p]) <==> LastTerminal(lines, p, t).Some?
    ensures LastTerminal(lines, p, t).Some? ==>
      Parse(lines)[p][t] == ResultOf(lines[LastTerminal(lines, p, t).value].value)
    decreases |lines|
  {
    if lines != [] {
      ParseEntry(lines[..|lines| - 1], p, t);
    }
  }

  /** Every stored entry is named by its key and has status pass, fail or skip. */
  lemma ParseWellFormed(lines: seq<Option<TestEvent>>)
    ensures WellFormed(Parse(lines))
  {
    forall p, t | p in Parse(lines) && t in Parse(lines)[p]
      ensures Parse(lines)[p][t].name == t && IsTerminal(Parse(lines)[p][t].status)
    {
      ParseEntry(lines, p, t);
    }
  }

  /** Reading more lines never removes a package. */
  lemma {:induction false} ParseKeysGrow(lines: seq<Option<TestEvent>>, more: seq<Option<TestEvent>>)
    ensures Parse(lines).Keys <= Parse(lines + more).Keys
  {
    ParseKeys(lines);
    ParseKeys(lines + more);
    forall p | p in Packages(lines) ensures p in Packages(lines + more) {
      var i :| 0 <= i < |lines| && Registers(lines[i]) && lines[i].value.package == p;
      assert (lines + more)[i] == lines[i];
    }
  }

  /** A failing run followed by a passing rerun of the same test leaves `pass`. */
  lemma LastTerminalWins(lines: seq<Option<TestEvent>>, p: string, t: string, d1: real, d2: real)
    requires p != "" && t != ""
    ensures var s := lines + [Some(TestEvent(Fail, p, t, "", d1)), Some(TestEvent(Pass, p, t, "", d2))];
      p in Parse(s) && t in Parse(s)[p] && Parse(s)[p][t].status == Pass
  {
    var s := lines + [Some(TestEvent(Fail, p, t, "", d1)), Some(TestEvent(Pass, p, t, "", d2))];
    assert s == (lines + [Some(TestEvent(Fail, p, t, "", d1))]) + [Some(TestEvent(Pass, p, t, "", d2))];
    TerminalOverwrites(lines + [Some(TestEvent(Fail, p, t, "", d1))], TestEvent(Pass, p, t, "", d2));
  }
}
