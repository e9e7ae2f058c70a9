/**
 * The decisions of the compliance report generator: which JUnit test
 * results carry an id, the anchor each result line gets (at most once per
 * run), whether a requirement's test is present for a machine and passed,
 * the row spans and statuses of a compliance matrix, and the exit code.
 * JUnit files and matrix files arrive already parsed; the AsciiDoc text
 * around the decisions is not modelled.
 */
module ComplianceReport {
  import opened Wrappers
  import opened Text
  import opened Ordering

  const GreenColor: string := "#90EE90"
  const RedColor: string := "#F08080"
  const OrangeColor: string := "#ee6644"

  /** The property that holds a test's id. */
  const IdProperty: string := "cukinia.id"

  // ---------------------------------------------------------------------
  // Parsed JUnit results
  // ---------------------------------------------------------------------

  datatype Property = Property(name: string, value: string)

  /** A test case; `properties` is `None` when it has no `<properties>` child. */
  datatype TestCase = TestCase(name: string, classname: string, properties: Option<seq<Property>>, passed: bool)

  datatype Suite = Suite(name: string, tests: seq<TestCase>)

  /** The value of the first property called `name`. */
  function FirstValue(props: seq<Property>, name: string): Option<string>
  {
    if props == [] then None
    else if props[0].name == name then Some(props[0].value)
    else FirstValue(props[1..], name)
  }

  /** `None` iff no property has the name; otherwise the value of the first one that has it. */
  lemma {:induction false} FirstValueMeaning(props: seq<Property>, name: string)
    ensures FirstValue(props, name).None? <==> forall i :: 0 <= i < |props| ==> props[i].name != name
    ensures FirstValue(props, name).Some? ==>
      exists i :: (0 <= i < |props| && props[i].name == name && props[i].value == FirstValue(props, name).value &&
        forall j :: 0 <= j < i ==> props[j].name != name)
  {
    if props != [] && props[0].name != name {
      FirstValueMeaning(props[1..], name);
      var r := FirstValue(props[1..], name);
      if r.Some? {
        var i :| 0 <= i < |props[1..]| && props[1..][i].name == name && props[1..][i].value == r.value &&
          forall j :: 0 <= j < i ==> props[1..][j].name != name;
        forall j | 0 <= j < i + 1 ensures props[j].name != name {
          if j > 0 { assert props[j] == props[1..][j - 1]; }
        }
        assert props[i + 1] == props[1..][i];
      } else {
        forall i | 0 <= i < |props| ensures props[i].name != name {
          if i > 0 { assert props[i] == props[1..][i - 1]; }
        }
      }
    }
  }

  /** `CukiniaTest.get_property_value(name)`. */
  function PropertyValue(t: TestCase, name: string): Option<string>
  {
    match t.properties
    case None => None
    case Some(props) => FirstValue(props, name)
  }

  /** Python's truthiness of an optional string. */
  predicate Truthy(v: Option<string>)
  {
    v.Some? && v.value != ""
  }

  /** `check_for_id`: whether the first test has an id; `None` for an empty suite. */
  function CheckForId(suite: Suite): (r: Option<bool>)
    ensures r.None? <==> suite.tests == []
    ensures r == Some(true) <==> suite.tests != [] && Truthy(PropertyValue(suite.tests[0], IdProperty))
  {
    if suite.tests == [] then None
    else Some(Truthy(PropertyValue(suite.tests[0], IdProperty)))
  }

  // ---------------------------------------------------------------------
  // Result lines and anchors
  // ---------------------------------------------------------------------

  /** What `f"{value}"` shows for an optional property value. */
  function ShowValue(v: Option<string>): string
  {
    if v.None? then "None" else v.value
  }

  /** `[[id]]`, or `[[classname_id]]` with the machine name, spaces turned into `_`. */
  function AnchorOf(t: TestCase, addMachineName: bool): string
  {
    ReplaceChar("[[" + (if addMachineName then t.classname + "_" else "") + ShowValue(PropertyValue(t, IdProperty)) + "]]", ' ', '_')
  }

  /** An anchor holds no space and is enclosed in `[[` and `]]`. */
  lemma AnchorShape(t: TestCase, addMachineName: bool)
    ensures var a := AnchorOf(t, addMachineName);
      ' ' !in a && |a| >= 4 && a[..2] == "[[" && a[|a| - 2..] == "]]"
  {
    var a := AnchorOf(t, addMachineName);
    ReplaceCharMeaning("[[" + (if addMachineName then t.classname + "_" else "") + ShowValue(PropertyValue(t, IdProperty)) + "]]", ' ', '_');
    assert a[0] == '[' && a[1] == '[' && a[|a| - 2] == ']' && a[|a| - 1] == ']';
  }

  /** The result cell of a line: its text and its colour. */
  function ResultCell(passed: bool): (cell: (string, string))
    ensures cell.0 == "PASS" <==> passed
    ensures cell.1 == GreenColor <==> passed
    ensures !passed ==> cell == ("FAIL", RedColor)
  {
    if passed then ("PASS", GreenColor) else ("FAIL", RedColor)
  }

  /**
   * One line of a suite's table: the id cell (when the suite has ids), the
   * anchor (empty when none is emitted), the test name and the result cell.
   */
  datatype TableRow = TableRow(idCell: Option<string>, anchor: string, name: string, result: string, color: string)

  /** `write_table_line` given the anchors assigned so far: the line and the new set. */
  function LineOf(anchors: set<string>, t: TestCase, hasTestId: bool, addMachineName: bool): (TableRow, set<string>)
  {
    var (result, color) := ResultCell(t.passed);
    if hasTestId then
      var anchor := AnchorOf(t, addMachineName);
      (TableRow(Some(ShowValue(PropertyValue(t, IdProperty))), if anchor in anchors then "" else anchor, t.name, result, color),
       anchors + {anchor})
    else (TableRow(None, "", t.name, result, color), anchors)
  }

  /**
   * The anchors emitted in `rows` were not anchors `before`, are anchors
   * `after`, and no anchor is emitted twice.
   */
  ghost predicate AnchorsFresh(rows: seq<TableRow>, before: set<string>, after: set<string>)
  {
    && before <= after
    && (forall i :: 0 <= i < |rows| && rows[i].anchor != "" ==> rows[i].anchor !in before && rows[i].anchor in after)
    && (forall i, j :: 0 <= i < j < |rows| && rows[i].anchor != "" ==> rows[i].anchor != rows[j].anchor)
  }

  /** Freshness composes along a run. */
  lemma AnchorsFreshAppend(r1: seq<TableRow>, r2: seq<TableRow>, a: set<string>, b: set<string>, c: set<string>)
    requires AnchorsFresh(r1, a, b) && AnchorsFresh(r2, b, c)
    ensures AnchorsFresh(r1 + r2, a, c)
  {
    var rows := r1 + r2;
    forall i, j | 0 <= i < j < |rows| && rows[i].anchor != "" ensures rows[i].anchor != rows[j].anchor {
      if j >= |r1| && i < |r1| {
        assert rows[i] == r1[i] && rows[j] == r2[j - |r1|];
      } else if i >= |r1| {
        assert rows[i] == r2[i - |r1|] && rows[j] == r2[j - |r1|];
      }
    }
    forall i | 0 <= i < |rows| && rows[i].anchor != "" ensures rows[i].anchor !in a && rows[i].anchor in c {
      if i >= |r1| { assert rows[i] == r2[i - |r1|]; }
    }
  }

  /** One line emits a fresh anchor or none, and adds an anchor only when the suite has ids. */
  lemma LineOfFresh(anchors: set<string>, t: TestCase, hasTestId: bool, addMachineName: bool)
    ensures var (row, after) := LineOf(anchors, t, hasTestId, addMachineName);
      AnchorsFresh([row], anchors, after) && (!hasTestId ==> after == anchors)
  {
  }

  /** One line shows the test's id, name and result, and emits and assigns only the test's own anchor. */
  lemma LineOfCells(anchors: set<string>, t: TestCase, hasTestId: bool, addMachineName: bool)
    ensures var (row, after) := LineOf(anchors, t, hasTestId, addMachineName);
      && RowShows(row, t, hasTestId)
      && (row.anchor != "" ==> hasTestId && row.anchor == AnchorOf(t, addMachineName))
      && (hasTestId ==> after == anchors + {AnchorOf(t, addMachineName)})
  {
  }

  /** The lines of the first `k` tests of a suite, and the anchors after them. */
  function SuiteRows(anchors: set<string>, tests: seq<TestCase>, hasTestId: bool, addMachineName: bool, k: nat)
    : (r: (seq<TableRow>, set<string>))
    requires k <= |tests|
    ensures |r.0| == k
    decreases k
  {
    if k == 0 then ([], anchors)
    else
      var (rows, now) := SuiteRows(anchors, tests, hasTestId, addMachineName, k - 1);
      var (row, next) := LineOf(now, tests[k - 1], hasTestId, addMachineName);
      (rows + [row], next)
  }

  /** Anchors of a suite are fresh; a suite without ids assigns none. */
  lemma {:induction false} SuiteRowsFresh(anchors: set<string>, tests: seq<TestCase>, hasTestId: bool, addMachineName: bool, k: nat)
    requires k <= |tests|
    ensures var (rows, after) := SuiteRows(anchors, tests, hasTestId, addMachineName, k);
      AnchorsFresh(rows, anchors, after) && (!hasTestId ==> after == anchors)
    decreases k
  {
    if k > 0 {
      SuiteRowsFresh(anchors, tests, hasTestId, addMachineName, k - 1);
      var (rows, now) := SuiteRows(anchors, tests, hasTestId, addMachineName, k - 1);
      var (row, next) := LineOf(now, tests[k - 1], hasTestId, addMachineName);
      LineOfFresh(now, tests[k - 1], hasTestId, addMachineName);
      AnchorsFreshAppend(rows, [row], anchors, now, next);
    }
  }

  /** A line shows its test: the id when the suite has ids, the name and the result. */
  predicate RowShows(row: TableRow, t: TestCase, hasTestId: bool)
  {
    && row.idCell == (if hasTestId then Some(ShowValue(PropertyValue(t, IdProperty))) else None)
    && row.name == t.name
    && (row.result, row.color) == ResultCell(t.passed)
  }

  /** Line `i` shows test `i`. */
  lemma {:induction false} SuiteRowsCells(anchors: set<string>, tests: seq<TestCase>, hasTestId: bool, addMachineName: bool, k: nat)
    requires k <= |tests|
    ensures forall i :: 0 <= i < k ==> RowShows(SuiteRows(anchors, tests, hasTestId, addMachineName, k).0[i], tests[i], hasTestId)
    decreases k
  {
    if k > 0 {
      SuiteRowsCells(anchors, tests, hasTestId, addMachineName, k - 1);
      var prev := SuiteRows(anchors, tests, hasTestId, addMachineName, k - 1);
      var row := LineOf(prev.1, tests[k - 1], hasTestId, addMachineName).0;
      LineOfCells(prev.1, tests[k - 1], hasTestId, addMachineName);
      assert SuiteRows(anchors, tests, hasTestId, addMachineName, k).0 == prev.0 + [row];
    }
  }

  /** An emitted anchor is the test's own, and a suite without ids emits none. */
  lemma {:induction false} SuiteRowsAnchors(anchors: set<string>, tests: seq<TestCase>, hasTestId: bool, addMachineName: bool, k: nat)
    requires k <= |tests|
    ensures forall i :: 0 <= i < k && SuiteRows(anchors, tests, hasTestId, addMachineName, k).0[i].anchor != "" ==>
      hasTestId && SuiteRows(anchors, tests, hasTestId, addMachineName, k).0[i].anchor == AnchorOf(tests[i], addMachineName)
    decreases k
  {
    if k > 0 {
      SuiteRowsAnchors(anchors, tests, hasTestId, addMachineName, k - 1);
      var prev := SuiteRows(anchors, tests, hasTestId, addMachineName, k - 1);
      var row := LineOf(prev.1, tests[k - 1], hasTestId, addMachineName).0;
      LineOfCells(prev.1, tests[k - 1], hasTestId, addMachineName);
      assert SuiteRows(anchors, tests, hasTestId, addMachineName, k).0 == prev.0 + [row];
    }
  }

  /**
   * In a suite with ids every test's anchor ends up assigned, so one that
   * is not emitted had been assigned before.
   */
  lemma {:induction false} SuiteRowsAssigned(anchors: set<string>, tests: seq<TestCase>, addMachineName: bool, k: nat)
    requires k <= |tests|
    ensures forall i :: 0 <= i < k ==> AnchorOf(tests[i], addMachineName) in SuiteRows(anchors, tests, true, addMachineName, k).1
    decreases k
  {
    if k > 0 {
      SuiteRowsAssigned(anchors, tests, addMachineName, k - 1);
      var before := SuiteRows(anchors, tests, true, addMachineName, k - 1).1;
      var after := SuiteRows(anchors, tests, true, addMachineName, k).1;
      LineOfCells(before, tests[k - 1], true, addMachineName);
      assert after == before + {AnchorOf(tests[k - 1], addMachineName)};
      forall i | 0 <= i < k ensures AnchorOf(tests[i], addMachineName) in after {
        if i < k - 1 {
          assert AnchorOf(tests[i], addMachineName) in before;
        }
      }
    }
  }

  /** Why a report stops. */
  datatype ReportError =
    | NoXmlFiles                      // no `-x` option: iterating over `None`
    | EmptySuite(suite: string)       // `next(iter(suite))` on an empty suite
    | MatrixMissing(matrix: string)   // `die`: the matrix file does not exist
    | MatrixNotAFile(matrix: string)  // `die`: the matrix path is not a file
    | MatrixRowError(error: MatrixError)

  /** The lines of the first `k` suites of a file, or the first empty suite. */
  function FileRows(anchors: set<string>, suites: seq<Suite>, addMachineName: bool, k: nat)
    : Result<(seq<TableRow>, set<string>), ReportError>
    requires k <= |suites|
    decreases k
  {
    if k == 0 then Ok(([], anchors))
    else
      match FileRows(anchors, suites, addMachineName, k - 1)
      case Err(e) => Err(e)
      case Ok((rows, now)) =>
        var suite := suites[k - 1];
        if suite.tests == [] then Err(EmptySuite(suite.name))
        else
          var (more, next) := SuiteRows(now, suite.tests, CheckForId(suite) == Some(true), addMachineName, |suite.tests|);
          Ok((rows + more, next))
  }

  lemma {:induction false} FileRowsFresh(anchors: set<string>, suites: seq<Suite>, addMachineName: bool, k: nat)
    requires k <= |suites|
    ensures FileRows(anchors, suites, addMachineName, k).Ok? <==> forall i :: 0 <= i < k ==> suites[i].tests != []
    ensures FileRows(anchors, suites, addMachineName, k).Ok? ==>
      var (rows, after) := FileRows(anchors, suites, addMachineName, k).value;
      AnchorsFresh(rows, anchors, after)
    decreases k
  {
    if k > 0 {
      FileRowsFresh(anchors, suites, addMachineName, k - 1);
      match FileRows(anchors, suites, addMachineName, k - 1)
      case Err(e) =>
      case Ok((rows, now)) =>
        var suite := suites[k - 1];
        if suite.tests != [] {
          var hasTestId := CheckForId(suite) == Some(true);
          SuiteRowsFresh(now, suite.tests, hasTestId, addMachineName, |suite.tests|);
          var (more, next) := SuiteRows(now, suite.tests, hasTestId, addMachineName, |suite.tests|);
          AnchorsFreshAppend(rows, more, anchors, now, next);
        }
    }
  }

  lemma {:induction false} FileRowsStaysFailed(anchors: set<string>, suites: seq<Suite>, addMachineName: bool, k: nat, m: nat)
    requires k <= m <= |suites| && FileRows(anchors, suites, addMachineName, k).Err?
    ensures FileRows(anchors, suites, addMachineName, m) == FileRows(anchors, suites, addMachineName, k)
    decreases m - k
  {
    if k < m {
      FileRowsStaysFailed(anchors, suites, addMachineName, k + 1, m);
    }
  }

  /** The set of anchors already emitted, shared by every file of a run. */
  class AnchorRegistry {
    var anchors: set<string>

    constructor ()
      ensures anchors == {}
    {
      anchors := {};
    }

    /** `write_table_line`: the anchor is emitted only if it was not anchors before. */
    method WriteTableLine(t: TestCase, hasTestId: bool, addMachineName: bool) returns (row: TableRow)
      modifies this
      ensures (row, anchors) == LineOf(old(anchors), t, hasTestId, addMachineName)
    {
      var idCell: Option<string> := None;
      var testAnchor := "";
      if hasTestId {
        var testId := PropertyValue(t, IdProperty);
        idCell := Some(ShowValue(testId));
        var anchor := AnchorOf(t, addMachineName);
        if anchor in anchors {
          assert anchors + {anchor} == anchors;
        } else {
          testAnchor := anchor;
          anchors := anchors + {anchor};
        }
      }
      var (result, color) := ResultCell(t.passed);
      row := TableRow(idCell, testAnchor, t.name, result, color);
    }

    /** The lines of one suite's table. */
    method WriteSuite(tests: seq<TestCase>, hasTestId: bool, addMachineName: bool) returns (rows: seq<TableRow>)
      modifies this
      ensures (rows, anchors) == SuiteRows(old(anchors), tests, hasTestId, addMachineName, |tests|)
    {
      rows := [];
      for i := 0 to |tests|
        invariant SuiteRows(old(anchors), tests, hasTestId, addMachineName, i) == (rows, anchors)
      {
        var row := WriteTableLine(tests[i], hasTestId, addMachineName);
        rows := rows + [row];
      }
    }

    /** `generate_xml_adoc`: the lines of every suite of one file. */
    method GenerateXmlAdoc(suites: seq<Suite>, addMachineName: bool) returns (r: Result<seq<TableRow>, ReportError>)
      modifies this
      ensures var spec := FileRows(old(anchors), suites, addMachineName, |suites|);
        && (spec.Err? ==> r == Err(spec.error))
        && (spec.Ok? ==> r == Ok(spec.value.0) && anchors == spec.value.1)
    {
      var rows: seq<TableRow> := [];
      for k := 0 to |suites|
        invariant FileRows(old(anchors), suites, addMachineName, k) == Ok((rows, anchors))
      {
        var suite := suites[k];
        var hasTestId := CheckForId(suite) == Some(true);
        if suite.tests == [] {
          FileRowsStaysFailed(old(anchors), suites, addMachineName, k + 1, |suites|);
          return Err(EmptySuite(suite.name));
        }
        var more := WriteSuite(suite.tests, hasTestId, addMachineName);
        rows := rows + more;
      }
      r := Ok(rows);
    }
  }

  // ---------------------------------------------------------------------
  // `check_test`
  // ---------------------------------------------------------------------

  /** The tests of some suites, in order. */
  function SuiteTests(suites: seq<Suite>): seq<TestCase>
  {
    if suites == [] then [] else SuiteTests(suites[..|suites| - 1]) + suites[|suites| - 1].tests
  }

  /** The tests of some files, in order. */
  function FileTests(files: seq<seq<Suite>>): seq<TestCase>
  {
    if files == [] then [] else FileTests(files[..|files| - 1]) + SuiteTests(files[|files| - 1])
  }

  /** A test that `check_test` takes into account: its id is `testId` and, with the flag, its classname is the machine. */
  predicate IsMatch(t: TestCase, testId: string, machine: string, addMachineName: bool)
  {
    PropertyValue(t, IdProperty) == Some(testId) && (t.classname == machine || !addMachineName)
  }

  /** The `present` and `passed` flags after visiting `tests`. */
  function CheckAll(tests: seq<TestCase>, testId: string, machine: string, addMachineName: bool): (bool, bool)
  {
    if tests == [] then (false, true)
    else
      var (present, passed) := CheckAll(tests[..|tests| - 1], testId, machine, addMachineName);
      var t := tests[|tests| - 1];
      if IsMatch(t, testId, machine, addMachineName) then (true, passed && t.passed) else (present, passed)
  }

  /** Visiting one more test. */
  lemma CheckAllSnoc(tests: seq<TestCase>, t: TestCase, testId: string, machine: string, addMachineName: bool)
    ensures CheckAll(tests + [t], testId, machine, addMachineName)
         == if IsMatch(t, testId, machine, addMachineName)
            then (true, CheckAll(tests, testId, machine, addMachineName).1 && t.passed)
            else CheckAll(tests, testId, machine, addMachineName)
  {
    assert (tests + [t])[..|tests|] == tests;
  }

  /** Present iff some test matches; passed iff no matching test failed (so it stays true when none matches). */
  lemma {:induction false} CheckAllMeaning(tests: seq<TestCase>, testId: string, machine: string, addMachineName: bool)
    ensures CheckAll(tests, testId, machine, addMachineName).0 <==>
      exists i :: 0 <= i < |tests| && IsMatch(tests[i], testId, machine, addMachineName)
    ensures CheckAll(tests, testId, machine, addMachineName).1 <==>
      forall i :: 0 <= i < |tests| && IsMatch(tests[i], testId, machine, addMachineName) ==> tests[i].passed
    decreases |tests|
  {
    if tests != [] {
      var prefix := tests[..|tests| - 1];
      CheckAllMeaning(prefix, testId, machine, addMachineName);
      assert forall i :: 0 <= i < |prefix| ==> tests[i] == prefix[i];
      if CheckAll(tests, testId, machine, addMachineName).0 && !IsMatch(tests[|tests| - 1], testId, machine, addMachineName) {
        var i :| 0 <= i < |prefix| && IsMatch(prefix[i], testId, machine, addMachineName);
        assert IsMatch(tests[i], testId, machine, addMachineName);
      }
    }
  }

  /** The flags after one more suite's tests. */
  method CheckSuite(ghost seen: seq<TestCase>, present0: bool, passed0: bool, tests: seq<TestCase>,
                    testId: string, machine: string, addMachineName: bool)
    returns (present: bool, passed: bool)
    requires (present0, passed0) == CheckAll(seen, testId, machine, addMachineName)
    ensures (present, passed) == CheckAll(seen + tests, testId, machine, addMachineName)
  {
    present, passed := present0, passed0;
    assert seen + tests[..0] == seen;
    for t := 0 to |tests|
      invariant (present, passed) == CheckAll(seen + tests[..t], testId, machine, addMachineName)
    {
      var test := tests[t];
      var currentId := PropertyValue(test, IdProperty);
      if currentId == Some(testId) {
        if test.classname == machine || !addMachineName {
          present := true;
          if !test.passed {
            passed := false;
          }
        }
      }
      assert seen + tests[..t + 1] == (seen + tests[..t]) + [test];
      CheckAllSnoc(seen + tests[..t], test, testId, machine, addMachineName);
    }
    assert tests[..|tests|] == tests;
  }

  /** The flags after one more file's suites. */
  method CheckFile(ghost seen: seq<TestCase>, present0: bool, passed0: bool, suites: seq<Suite>,
                   testId: string, machine: string, addMachineName: bool)
    returns (present: bool, passed: bool)
    requires (present0, passed0) == CheckAll(seen, testId, machine, addMachineName)
    ensures (present, passed) == CheckAll(seen + SuiteTests(suites), testId, machine, addMachineName)
  {
    present, passed := present0, passed0;
    ghost var cur := seen;
    assert suites[..0] == [];
    for s := 0 to |suites|
      invariant cur == seen + SuiteTests(suites[..s])
      invariant (present, passed) == CheckAll(cur, testId, machine, addMachineName)
    {
      present, passed := CheckSuite(cur, present, passed, suites[s].tests, testId, machine, addMachineName);
      assert suites[..s + 1][..s] == suites[..s];
      assert seen + SuiteTests(suites[..s + 1]) == cur + suites[s].tests;
      cur := cur + suites[s].tests;
    }
    assert suites[..|suites|] == suites;
  }

  /** `check_test`: the flags over every test of every suite of every file. */
  method CheckTest(testId: string, machine: string, xml: seq<seq<Suite>>, addMachineName: bool)
    returns (present: bool, passed: bool)
    ensures (present, passed) == CheckAll(FileTests(xml), testId, machine, addMachineName)
  {
    present, passed := false, true;
    ghost var seen: seq<TestCase> := [];
    for f := 0 to |xml|
      invariant seen == FileTests(xml[..f])
      invariant (present, passed) == CheckAll(seen, testId, machine, addMachineName)
    {
      present, passed := CheckFile(seen, present, passed, xml[f], testId, machine, addMachineName);
      assert xml[..f + 1][..f] == xml[..f];
      seen := seen + SuiteTests(xml[f]);
    }
    assert xml[..|xml|] == xml;
  }

  // ---------------------------------------------------------------------
  // Compliance matrices
  // ---------------------------------------------------------------------

  /** The status of a matrix row. */
  datatype Status = Absent | Pass | Fail

  function StatusOf(present: bool, passed: bool): (s: Status)
    ensures s == Absent <==> !present
    ensures s == Pass <==> present && passed
  {
    if !present then Absent else if passed then Pass else Fail
  }

  function StatusText(s: Status): string
  {
    match s
    case Absent => "ABSENT"
    case Pass => "PASS"
    case Fail => "FAIL"
  }

  function StatusColor(s: Status): string
  {
    match s
    case Absent => OrangeColor
    case Pass => GreenColor
    case Fail => RedColor
  }

  /** Where a matrix row links to: the test id, prefixed by the machine with the flag, spaces turned into `_`. */
  function TestLink(machine: string, testId: string, addMachineName: bool): string
  {
    ReplaceChar(if addMachineName then machine + "_" + testId else testId, ' ', '_')
  }

  /** A matrix row links to the anchor of the result line of a test it counts. */
  lemma LinkMatchesAnchor(t: TestCase, machine: string, testId: string, addMachineName: bool)
    requires PropertyValue(t, IdProperty) == Some(testId) && (addMachineName ==> t.classname == machine)
    ensures AnchorOf(t, addMachineName) == "[[" + TestLink(machine, testId, addMachineName) + "]]"
  {
    var inner := if addMachineName then machine + "_" + testId else testId;
    var text := "[[" + inner + "]]";
    assert text == "[[" + (if addMachineName then t.classname + "_" else "") + ShowValue(PropertyValue(t, IdProperty)) + "]]";
    var a := ReplaceChar(text, ' ', '_');
    var b := "[[" + ReplaceChar(inner, ' ', '_') + "]]";
    ReplaceCharMeaning(text, ' ', '_');
    ReplaceCharMeaning(inner, ' ', '_');
    assert |a| == |b|;
    forall i | 0 <= i < |a| ensures a[i] == b[i] {
      if 2 <= i < |a| - 2 {
        assert text[i] == inner[i - 2];
      }
    }
  }

  /** Why a matrix stops: a row that is not `requirement,test id`, or an empty row met by the span count. */
  datatype MatrixError = MalformedRow(index: nat) | EmptyRow

  /** A matrix row: the span of the requirement cell when one starts here, and the test cell. */
  datatype MatrixRow = MatrixRow(span: Option<nat>, requirement: string, link: string, testId: string, status: Status)

  /** What the matrix loop keeps: `current_requirement`, the rows written and `return_code`. */
  datatype MatrixState = MatrixState(current: string, rows: seq<MatrixRow>, rc: int)

  predicate HasEmptyRow(reqs: seq<seq<string>>)
  {
    exists i :: 0 <= i < |reqs| && reqs[i] == []
  }

  /** `sum([req == r[0] for r in requirements])`, on rows that are not empty. */
  function SpanCount(reqs: seq<seq<string>>, req: string): (n: nat)
    ensures n <= |reqs|
  {
    if reqs == [] then 0
    else SpanCount(reqs[..|reqs| - 1], req) + (if reqs[|reqs| - 1] != [] && reqs[|reqs| - 1][0] == req then 1 else 0)
  }

  /** The matrix state after the first `k` rows, for one machine. */
  function MatrixUpTo(reqs: seq<seq<string>>, machine: string, tests: seq<TestCase>, addMachineName: bool, k: nat)
    : Result<MatrixState, MatrixError>
    requires k <= |reqs|
    decreases k
  {
    if k == 0 then Ok(MatrixState("", [], 0))
    else
      match MatrixUpTo(reqs, machine, tests, addMachineName, k - 1)
      case Err(e) => Err(e)
      case Ok(st) =>
        var row := reqs[k - 1];
        if |row| != 2 then Err(MalformedRow(k - 1))
        else
          var req := row[0];
          var testId := row[1];
          var starts := req != st.current;
          if starts && HasEmptyRow(reqs) then Err(EmptyRow)
          else
            var (present, passed) := CheckAll(tests, testId, machine, addMachineName);
            var status := StatusOf(present, passed);
            var line := MatrixRow(if starts then Some(SpanCount(reqs, req)) else None, req,
                                  TestLink(machine, testId, addMachineName), testId, status);
            Ok(MatrixState(req, st.rows + [line], if status == Absent then 1 else st.rc))
  }

  /** `write_matrix_tests` for one machine: the rows and the return code. */
  function MatrixOf(reqs: seq<seq<string>>, machine: string, tests: seq<TestCase>, addMachineName: bool)
    : Result<(seq<MatrixRow>, int), MatrixError>
  {
    match MatrixUpTo(reqs, machine, tests, addMachineName, |reqs|)
    case Err(e) => Err(e)
    case Ok(st) => Ok((st.rows, st.rc))
  }

  lemma {:induction false} MatrixUpToStaysFailed(reqs: seq<seq<string>>, machine: string, tests: seq<TestCase>,
                                                 addMachineName: bool, k: nat, m: nat)
    requires k <= m <= |reqs| && MatrixUpTo(reqs, machine, tests, addMachineName, k).Err?
    ensures MatrixUpTo(reqs, machine, tests, addMachineName, m) == MatrixUpTo(reqs, machine, tests, addMachineName, k)
    decreases m - k
  {
    if k < m {
      MatrixUpToStaysFailed(reqs, machine, tests, addMachineName, k + 1, m);
    }
  }

  /** Row `i` shows requirement `i`: its name, the status of its test for the machine and the link. */
  lemma {:induction false} MatrixCells(reqs: seq<seq<string>>, machine: string, tests: seq<TestCase>, addMachineName: bool, k: nat)
    requires k <= |reqs| && MatrixUpTo(reqs, machine, tests, addMachineName, k).Ok?
    ensures forall i :: 0 <= i < k ==> |reqs[i]| == 2
    ensures var st := MatrixUpTo(reqs, machine, tests, addMachineName, k).value;
      && |st.rows| == k
      && st.current == (if k == 0 then "" else reqs[k - 1][0])
      && forall i :: 0 <= i < k ==>
        (&& st.rows[i].requirement == reqs[i][0] && st.rows[i].testId == reqs[i][1]
         && st.rows[i].link == TestLink(machine, reqs[i][1], addMachineName)
         && st.rows[i].status == StatusOf(CheckAll(tests, reqs[i][1], machine, addMachineName).0,
                                          CheckAll(tests, reqs[i][1], machine, addMachineName).1))
    decreases k
  {
    if k > 0 {
      MatrixCells(reqs, machine, tests, addMachineName, k - 1);
    }
  }

  /**
   * The requirement cell starts at row `i` iff its name differs from the
   * one before (`""` before the first row), and spans as many rows as carry
   * that name.
   */
  lemma {:induction false} MatrixSpans(reqs: seq<seq<string>>, machine: string, tests: seq<TestCase>, addMachineName: bool, k: nat)
    requires k <= |reqs| && MatrixUpTo(reqs, machine, tests, addMachineName, k).Ok?
    ensures forall i :: 0 <= i < k ==> |reqs[i]| == 2
    ensures var rows := MatrixUpTo(reqs, machine, tests, addMachineName, k).value.rows;
      && |rows| == k
      && forall i :: 0 <= i < k ==>
        rows[i].span == if reqs[i][0] != (if i == 0 then "" else reqs[i - 1][0]) then Some(SpanCount(reqs, reqs[i][0])) else None
    decreases k
  {
    if k > 0 {
      MatrixSpans(reqs, machine, tests, addMachineName, k - 1);
      MatrixCells(reqs, machine, tests, addMachineName, k - 1);
      var prev := MatrixUpTo(reqs, machine, tests, addMachineName, k - 1).value;
      var rows := MatrixUpTo(reqs, machine, tests, addMachineName, k).value.rows;
      var req := reqs[k - 1][0];
      assert prev.current == (if k == 1 then "" else reqs[k - 2][0]);
      assert rows == prev.rows + [rows[k - 1]];
      assert rows[k - 1].span == if req != prev.current then Some(SpanCount(reqs, req)) else None;
    }
  }

  /** The return code is 1 iff some row is ABSENT; a FAIL leaves it alone. */
  lemma {:induction false} MatrixReturnCode(reqs: seq<seq<string>>, machine: string, tests: seq<TestCase>, addMachineName: bool, k: nat)
    requires k <= |reqs| && MatrixUpTo(reqs, machine, tests, addMachineName, k).Ok?
    ensures var st := MatrixUpTo(reqs, machine, tests, addMachineName, k).value;
      && (st.rc == 0 || st.rc == 1)
      && |st.rows| == k
      && (st.rc == 1 <==> exists i :: 0 <= i < k && st.rows[i].status == Absent)
    decreases k
  {
    if k > 0 {
      MatrixReturnCode(reqs, machine, tests, addMachineName, k - 1);
      var prev := MatrixUpTo(reqs, machine, tests, addMachineName, k - 1).value;
      var st := MatrixUpTo(reqs, machine, tests, addMachineName, k).value;
      assert st.rows == prev.rows + [st.rows[k - 1]];
      if st.rc == 1 && st.rows[k - 1].status != Absent {
        var i :| 0 <= i < k - 1 && prev.rows[i].status == Absent;
        assert st.rows[i] == prev.rows[i];
      }
      if exists i :: 0 <= i < k - 1 && st.rows[i].status == Absent {
        var i :| 0 <= i < k - 1 && st.rows[i].status == Absent;
        assert prev.rows[i] == st.rows[i];
      }
    }
  }

  /** A matrix is written in full iff every row is `requirement,test id`. */
  lemma {:induction false} MatrixWellFormed(reqs: seq<seq<string>>, machine: string, tests: seq<TestCase>, addMachineName: bool, k: nat)
    requires k <= |reqs|
    requires forall i :: 0 <= i < |reqs| ==> |reqs[i]| == 2
    ensures MatrixUpTo(reqs, machine, tests, addMachineName, k).Ok?
    decreases k
  {
    if k > 0 {
      MatrixWellFormed(reqs, machine, tests, addMachineName, k - 1);
      assert !HasEmptyRow(reqs);
    }
  }

  /** In rows sorted as Python sorts lists, rows with the same requirement are adjacent. */
  lemma SortedRunsContiguous(reqs: seq<seq<string>>, i: nat, m: nat, j: nat)
    requires Sorted(reqs, RowLess)
    requires i < m < j < |reqs| && reqs[i] != [] && reqs[m] != [] && reqs[j] != []
    ensures reqs[i][0] == reqs[j][0] ==> reqs[m][0] == reqs[i][0]
  {
    StringLessStrictTotal();
    assert !RowLess(reqs[m], reqs[i]) && !RowLess(reqs[j], reqs[m]);
  }

  /** With sorted rows, each requirement cell is written once: two cells never carry the same name. */
  lemma SpanOncePerRequirement(reqs: seq<seq<string>>, machine: string, tests: seq<TestCase>, addMachineName: bool)
    requires Sorted(reqs, RowLess) && MatrixUpTo(reqs, machine, tests, addMachineName, |reqs|).Ok?
    ensures var rows := MatrixUpTo(reqs, machine, tests, addMachineName, |reqs|).value.rows;
      forall i, j :: 0 <= i < j < |rows| && rows[i].span.Some? && rows[j].span.Some? ==>
        rows[i].requirement != rows[j].requirement
  {
    var k := |reqs|;
    MatrixCells(reqs, machine, tests, addMachineName, k);
    MatrixSpans(reqs, machine, tests, addMachineName, k);
    var rows := MatrixUpTo(reqs, machine, tests, addMachineName, k).value.rows;
    forall i, j | 0 <= i < j < |rows| && rows[i].span.Some? && rows[j].span.Some?
      ensures rows[i].requirement != rows[j].requirement
    {
      if i < j - 1 {
        SortedRunsContiguous(reqs, i, j - 1, j);
      }
    }
  }

  /** `write_matrix_tests`. */
  method WriteMatrixTests(reqs: seq<seq<string>>, machine: string, xml: seq<seq<Suite>>, addMachineName: bool)
    returns (r: Result<(seq<MatrixRow>, int), MatrixError>)
    ensures r == MatrixOf(reqs, machine, FileTests(xml), addMachineName)
  {
    var rc := 0;
    var current := "";
    var rows: seq<MatrixRow> := [];
    for k := 0 to |reqs|
      invariant MatrixUpTo(reqs, machine, FileTests(xml), addMachineName, k) == Ok(MatrixState(current, rows, rc))
    {
      var row := reqs[k];
      if |row| != 2 {
        MatrixUpToStaysFailed(reqs, machine, FileTests(xml), addMachineName, k + 1, |reqs|);
        return Err(MalformedRow(k));
      }
      var req, testId := row[0], row[1];
      var span: Option<nat> := None;
      if req != current {
        current := req;
        if HasEmptyRow(reqs) {
          MatrixUpToStaysFailed(reqs, machine, FileTests(xml), addMachineName, k + 1, |reqs|);
          return Err(EmptyRow);
        }
        span := Some(SpanCount(reqs, req));
      }
      var present, passed := CheckTest(testId, machine, xml, addMachineName);
      var link := TestLink(machine, testId, addMachineName);
      var status := StatusOf(present, passed);
      if status == Absent {
        rc := 1;
      }
      rows := rows + [MatrixRow(span, req, link, testId, status)];
    }
    return Ok((rows, rc));
  }

  // ---------------------------------------------------------------------
  // `generate_compliance_matrix_adoc`
  // ---------------------------------------------------------------------

  /** The distinct classnames of `tests`, in the order they are first seen. */
  function Machines(tests: seq<TestCase>): seq<string>
  {
    if tests == [] then []
    else
      var ms := Machines(tests[..|tests| - 1]);
      var c := tests[|tests| - 1].classname;
      if c in ms then ms else ms + [c]
  }

  /** Visiting one more test adds its classname when it is new. */
  lemma MachinesSnoc(tests: seq<TestCase>, t: TestCase)
    ensures Machines(tests + [t]) == if t.classname in Machines(tests) then Machines(tests) else Machines(tests) + [t.classname]
  {
    assert (tests + [t])[..|tests|] == tests;
  }

  /** The machines are exactly the classnames, each once. */
  lemma {:induction false} MachinesMeaning(tests: seq<TestCase>)
    ensures forall x :: x in Machines(tests) <==> exists i :: 0 <= i < |tests| && tests[i].classname == x
    ensures forall i, j :: 0 <= i < j < |Machines(tests)| ==> Machines(tests)[i] != Machines(tests)[j]
    decreases |tests|
  {
    if tests != [] {
      var prefix := tests[..|tests| - 1];
      MachinesMeaning(prefix);
      assert forall i :: 0 <= i < |prefix| ==> tests[i] == prefix[i];
      forall x | x in Machines(tests) ensures exists i :: 0 <= i < |tests| && tests[i].classname == x {
        if x in Machines(prefix) {
          var i :| 0 <= i < |prefix| && prefix[i].classname == x;
          assert tests[i].classname == x;
        } else {
          assert tests[|tests| - 1].classname == x;
        }
      }
    }
  }

  /** First-seen order: the machines of a prefix of the tests come first, in the same order. */
  lemma {:induction false} MachinesPrefix(tests: seq<TestCase>, k: nat)
    requires k <= |tests|
    ensures Machines(tests[..k]) <= Machines(tests)
    decreases |tests| - k
  {
    if k < |tests| {
      MachinesPrefix(tests, k + 1);
      var t := tests[..k + 1];
      assert t[..|t| - 1] == tests[..k];
    } else {
      assert tests[..k] == tests;
    }
  }

  /** The machines list after one more suite's tests. */
  method AddMachines(ghost seen: seq<TestCase>, machines: seq<string>, tests: seq<TestCase>) returns (ms: seq<string>)
    requires machines == Machines(seen)
    ensures ms == Machines(seen + tests)
  {
    ms := machines;
    assert seen + tests[..0] == seen;
    for t := 0 to |tests|
      invariant ms == Machines(seen + tests[..t])
    {
      var test := tests[t];
      if test.classname !in ms {
        ms := ms + [test.classname];
      }
      assert seen + tests[..t + 1] == (seen + tests[..t]) + [test];
      MachinesSnoc(seen + tests[..t], test);
    }
    assert tests[..|tests|] == tests;
  }

  /** The machines list after one more file's suites. */
  method AddFileMachines(ghost seen: seq<TestCase>, machines: seq<string>, suites: seq<Suite>) returns (ms: seq<string>)
    requires machines == Machines(seen)
    ensures ms == Machines(seen + SuiteTests(suites))
  {
    ms := machines;
    ghost var cur := seen;
    assert suites[..0] == [];
    for s := 0 to |suites|
      invariant cur == seen + SuiteTests(suites[..s])
      invariant ms == Machines(cur)
    {
      ms := AddMachines(cur, ms, suites[s].tests);
      assert suites[..s + 1][..s] == suites[..s];
      assert seen + SuiteTests(suites[..s + 1]) == cur + suites[s].tests;
      cur := cur + suites[s].tests;
    }
    assert suites[..|suites|] == suites;
  }

  /** The machines list, collected over every test of every suite of every file. */
  method CollectMachines(xml: seq<seq<Suite>>) returns (machines: seq<string>)
    ensures machines == Machines(FileTests(xml))
  {
    machines := [];
    ghost var seen: seq<TestCase> := [];
    for f := 0 to |xml|
      invariant seen == FileTests(xml[..f])
      invariant machines == Machines(seen)
    {
      machines := AddFileMachines(seen, machines, xml[f]);
      assert xml[..f + 1][..f] == xml[..f];
      seen := seen + SuiteTests(xml[f]);
    }
    assert xml[..|xml|] == xml;
  }

  /** A `-c` argument: a path that does not exist, one that is not a file, or the rows of a CSV file. */
  datatype MatrixFile =
    | Missing(path: string)
    | NotAFile(path: string)
    | Csv(path: string, rows: seq<seq<string>>)

  /** The return code over the first `k` machines; a matrix error stops everything. */
  function MachinesRc(reqs: seq<seq<string>>, machines: seq<string>, tests: seq<TestCase>, addMachineName: bool, k: nat)
    : Result<int, ReportError>
    requires k <= |machines|
    decreases k
  {
    if k == 0 then Ok(0)
    else
      match MachinesRc(reqs, machines, tests, addMachineName, k - 1)
      case Err(e) => Err(e)
      case Ok(rc) =>
        match MatrixOf(reqs, machines[k - 1], tests, addMachineName)
        case Err(e) => Err(MatrixRowError(e))
        case Ok((_, ret)) => Ok(if ret == 1 then 1 else rc)
  }

  /** `generate_compliance_matrix_adoc` for one matrix file, over all the tests. */
  function ComplianceOf(matrix: MatrixFile, tests: seq<TestCase>, addMachineName: bool): Result<int, ReportError>
  {
    match matrix
    case Missing(path) => Err(MatrixMissing(path))
    case NotAFile(path) => Err(MatrixNotAFile(path))
    case Csv(_, rows) =>
      var machines := Machines(tests);
      MachinesRc(Sort(rows, RowLess), machines, tests, addMachineName, |machines|)
  }

  lemma {:induction false} MachinesRcStaysFailed(reqs: seq<seq<string>>, machines: seq<string>, tests: seq<TestCase>,
                                                 addMachineName: bool, k: nat, m: nat)
    requires k <= m <= |machines| && MachinesRc(reqs, machines, tests, addMachineName, k).Err?
    ensures MachinesRc(reqs, machines, tests, addMachineName, m) == MachinesRc(reqs, machines, tests, addMachineName, k)
    decreases m - k
  {
    if k < m {
      MachinesRcStaysFailed(reqs, machines, tests, addMachineName, k + 1, m);
    }
  }

  /** The matrix result is 1 iff the rows of some machine returned 1, and 0 otherwise. */
  lemma {:induction false} MachinesRcMeaning(reqs: seq<seq<string>>, machines: seq<string>, tests: seq<TestCase>,
                                             addMachineName: bool, k: nat)
    requires k <= |machines| && MachinesRc(reqs, machines, tests, addMachineName, k).Ok?
    ensures forall i :: 0 <= i < k ==> MatrixOf(reqs, machines[i], tests, addMachineName).Ok?
    ensures var rc := MachinesRc(reqs, machines, tests, addMachineName, k).value;
      && (rc == 0 || rc == 1)
      && (rc == 1 <==> exists i :: 0 <= i < k && MatrixOf(reqs, machines[i], tests, addMachineName).value.1 == 1)
    decreases k
  {
    if k > 0 {
      MachinesRcMeaning(reqs, machines, tests, addMachineName, k - 1);
    }
  }

  /** `generate_compliance_matrix_adoc`. */
  method GenerateComplianceMatrix(matrix: MatrixFile, xml: seq<seq<Suite>>, addMachineName: bool)
    returns (r: Result<int, ReportError>)
    ensures r == ComplianceOf(matrix, FileTests(xml), addMachineName)
  {
    var machines := CollectMachines(xml);
    if matrix.Missing? {
      return Err(MatrixMissing(matrix.path));
    }
    if matrix.NotAFile? {
      return Err(MatrixNotAFile(matrix.path));
    }
    var returnCode := 0;
    for i := 0 to |machines|
      invariant MachinesRc(Sort(matrix.rows, RowLess), machines, FileTests(xml), addMachineName, i) == Ok(returnCode)
    {
      var requirements := Sort(matrix.rows, RowLess);
      var ret := WriteMatrixTests(requirements, machines[i], xml, addMachineName);
      if ret.Err? {
        MachinesRcStaysFailed(requirements, machines, FileTests(xml), addMachineName, i + 1, |machines|);
        return Err(MatrixRowError(ret.error));
      }
      if ret.value.1 == 1 {
        returnCode := 1;
      }
    }
    return Ok(returnCode);
  }

  // ---------------------------------------------------------------------
  // The script
  // ---------------------------------------------------------------------

  /** The lines of every file's tables and the exit code. */
  datatype ReportOutput = ReportOutput(tables: seq<seq<TableRow>>, exitCode: int)

  /** The tables of the first `k` files, sharing one set of anchors. */
  function TablesUpTo(files: seq<seq<Suite>>, addMachineName: bool, k: nat): Result<(seq<seq<TableRow>>, set<string>), ReportError>
    requires k <= |files|
    decreases k
  {
    if k == 0 then Ok(([], {}))
    else
      match TablesUpTo(files, addMachineName, k - 1)
      case Err(e) => Err(e)
      case Ok((tables, anchors)) =>
        match FileRows(anchors, files[k - 1], addMachineName, |files[k - 1]|)
        case Err(e) => Err(e)
        case Ok((rows, next)) => Ok((tables + [rows], next))
  }

  /** What each matrix returns. */
  function MatrixOutcomes(matrices: seq<MatrixFile>, tests: seq<TestCase>, addMachineName: bool)
    : (outs: seq<Result<int, ReportError>>)
    ensures |outs| == |matrices|
  {
    seq(|matrices|, i requires 0 <= i < |matrices| => ComplianceOf(matrices[i], tests, addMachineName))
  }

  /** The exit code over the first `k` matrix outcomes; an error stops everything. */
  function ExitUpTo(outs: seq<Result<int, ReportError>>, k: nat): Result<int, ReportError>
    requires k <= |outs|
    decreases k
  {
    if k == 0 then Ok(0)
    else
      match ExitUpTo(outs, k - 1)
      case Err(e) => Err(e)
      case Ok(code) =>
        match outs[k - 1]
        case Err(e) => Err(e)
        case Ok(ret) => Ok(if ret == 1 then 1 else code)
  }

  /** What the script does with the `-x` files, the `-c` matrices and the `-m` flag. */
  function ReportOf(xmlFiles: Option<seq<seq<Suite>>>, matrices: seq<MatrixFile>, addMachineName: bool)
    : Result<ReportOutput, ReportError>
  {
    match xmlFiles
    case None => Err(NoXmlFiles)
    case Some(files) =>
      match TablesUpTo(files, addMachineName, |files|)
      case Err(e) => Err(e)
      case Ok((tables, _)) =>
        match ExitUpTo(MatrixOutcomes(matrices, FileTests(files), addMachineName), |matrices|)
        case Err(e) => Err(e)
        case Ok(code) => Ok(ReportOutput(tables, code))
  }

  /** The lines of several tables, in order. */
  function Concat(tables: seq<seq<TableRow>>): seq<TableRow>
  {
    if tables == [] then [] else Concat(tables[..|tables| - 1]) + tables[|tables| - 1]
  }

  /** Across all the files of a run, no anchor is emitted twice. */
  lemma {:induction false} TablesAnchorsFresh(files: seq<seq<Suite>>, addMachineName: bool, k: nat)
    requires k <= |files| && TablesUpTo(files, addMachineName, k).Ok?
    ensures var (tables, anchors) := TablesUpTo(files, addMachineName, k).value;
      AnchorsFresh(Concat(tables), {}, anchors)
    decreases k
  {
    if k > 0 {
      TablesAnchorsFresh(files, addMachineName, k - 1);
      var (tables, anchors) := TablesUpTo(files, addMachineName, k - 1).value;
      FileRowsFresh(anchors, files[k - 1], addMachineName, |files[k - 1]|);
      var (rows, next) := FileRows(anchors, files[k - 1], addMachineName, |files[k - 1]|).value;
      AnchorsFreshAppend(Concat(tables), rows, {}, anchors, next);
      var all := tables + [rows];
      assert all[..|all| - 1] == tables;
    }
  }

  /** The exit code is 1 iff some matrix returned 1, and 0 otherwise. */
  lemma {:induction false} ExitCodeMeaning(outs: seq<Result<int, ReportError>>, k: nat)
    requires k <= |outs| && ExitUpTo(outs, k).Ok?
    ensures forall i :: 0 <= i < k ==> outs[i].Ok?
    ensures var code := ExitUpTo(outs, k).value;
      && (code == 0 || code == 1)
      && (code == 1 <==> exists i :: 0 <= i < k && outs[i] == Ok(1))
    decreases k
  {
    if k > 0 {
      ExitCodeMeaning(outs, k - 1);
    }
  }

  /** A run that completes emits each anchor once, and exits with 1 iff some matrix returned 1. */
  lemma ReportProperties(xmlFiles: Option<seq<seq<Suite>>>, matrices: seq<MatrixFile>, addMachineName: bool)
    requires ReportOf(xmlFiles, matrices, addMachineName).Ok?
    ensures var out := ReportOf(xmlFiles, matrices, addMachineName).value;
      && (forall i, j :: 0 <= i < j < |Concat(out.tables)| && Concat(out.tables)[i].anchor != "" ==>
            Concat(out.tables)[i].anchor != Concat(out.tables)[j].anchor)
      && (out.exitCode == 0 || out.exitCode == 1)
      && (out.exitCode == 1 <==>
            exists i :: 0 <= i < |matrices| && ComplianceOf(matrices[i], FileTests(xmlFiles.value), addMachineName) == Ok(1))
  {
    var files := xmlFiles.value;
    TablesAnchorsFresh(files, addMachineName, |files|);
    var outs := MatrixOutcomes(matrices, FileTests(files), addMachineName);
    ExitCodeMeaning(outs, |matrices|);
    assert forall i :: 0 <= i < |matrices| ==> outs[i] == ComplianceOf(matrices[i], FileTests(files), addMachineName);
  }

  lemma {:induction false} TablesUpToStaysFailed(files: seq<seq<Suite>>, addMachineName: bool, k: nat, m: nat)
    requires k <= m <= |files| && TablesUpTo(files, addMachineName, k).Err?
    ensures TablesUpTo(files, addMachineName, m) == TablesUpTo(files, addMachineName, k)
    decreases m - k
  {
    if k < m {
      TablesUpToStaysFailed(files, addMachineName, k + 1, m);
    }
  }

  lemma {:induction false} ExitUpToStaysFailed(outs: seq<Result<int, ReportError>>, k: nat, m: nat)
    requires k <= m <= |outs| && ExitUpTo(outs, k).Err?
    ensures ExitUpTo(outs, m) == ExitUpTo(outs, k)
    decreases m - k
  {
    if k < m {
      ExitUpToStaysFailed(outs, k + 1, m);
    }
  }

  /** The script's `__main__`: the tables of every file, then every matrix, then the exit code. */
  method Report(xmlFiles: Option<seq<seq<Suite>>>, matrices: seq<MatrixFile>, addMachineName: bool)
    returns (r: Result<ReportOutput, ReportError>)
    ensures r == ReportOf(xmlFiles, matrices, addMachineName)
  {
    if xmlFiles.None? {
      return Err(NoXmlFiles);
    }
    var files := xmlFiles.value;
    var registry := new AnchorRegistry();
    var tables: seq<seq<TableRow>> := [];
    for k := 0 to |files|
      invariant TablesUpTo(files, addMachineName, k) == Ok((tables, registry.anchors))
    {
      var rows := registry.GenerateXmlAdoc(files[k], addMachineName);
      if rows.Err? {
        TablesUpToStaysFailed(files, addMachineName, k + 1, |files|);
        return Err(rows.error);
      }
      tables := tables + [rows.value];
    }
    ghost var outs := MatrixOutcomes(matrices, FileTests(files), addMachineName);
    var returnCode := 0;
    for k := 0 to |matrices|
      invariant ExitUpTo(outs, k) == Ok(returnCode)
    {
      var ret := GenerateComplianceMatrix(matrices[k], files, addMachineName);
      assert ret == outs[k];
      if ret.Err? {
        ExitUpToStaysFailed(outs, k + 1, |matrices|);
        return Err(ret.error);
      }
      if ret.value == 1 {
        returnCode := 1;
      }
    }
    r := Ok(ReportOutput(tables, returnCode));
  }
}
