/**
 * The Sonar quality gate: count the open issues at a blocking severity in a
 * scanner report and fail (exit code 1) when there is at least one.
 */
module SonarGate {
  import opened Wrappers

  /**
   * One entry of the report's `issues` list. A key the entry lacks is `None`;
   * reading it raises `KeyError` in the script.
   */
  datatype Issue = Issue(status: Option<string>, severity: Option<string>)

  /** The report: `None` when it has no `issues` key. */
  type Report = Option<seq<Issue>>

  /** The `KeyError` that stops the script: which entry, which key. */
  datatype GateError = MissingKey(index: nat, key: string)

  const BlockingSeverities: set<string> := {"BLOCKER", "CRITICAL", "MAJOR", "MINOR"}

  /** An issue the gate counts. */
  predicate Counted(issue: Issue)
  {
    issue.status == Some("OPEN") && issue.severity.Some? && issue.severity.value in BlockingSeverities
  }

  /**
   * An issue the script can read: it has a status, and an open one also has a
   * severity (the `and` does not look at the severity of an issue that is not open).
   */
  predicate Readable(issue: Issue)
  {
    issue.status.Some? && (issue.status.value == "OPEN" ==> issue.severity.Some?)
  }

  /** What the loop body does with one issue: the increment, or the `KeyError`. */
  function Step(issue: Issue, index: nat): Result<nat, GateError>
  {
    if issue.status.None? then Err(MissingKey(index, "status"))
    else if issue.status.value != "OPEN" then Ok(0)
    else if issue.severity.None? then Err(MissingKey(index, "severity"))
    else if issue.severity.value in BlockingSeverities then Ok(1)
    else Ok(0)
  }

  /** `nb_issues` after the first `k` issues; the first unreadable one stops the loop. */
  function CountUpTo(issues: seq<Issue>, k: nat): Result<nat, GateError>
    requires k <= |issues|
    decreases k
  {
    if k == 0 then Ok(0)
    else
      match CountUpTo(issues, k - 1)
      case Err(e) => Err(e)
      case Ok(n) =>
        match Step(issues[k - 1], k - 1)
        case Err(e) => Err(e)
        case Ok(d) => Ok(n + d)
  }

  /** The count over the whole report; a report without `issues` counts nothing. */
  function CountOf(report: Report): Result<nat, GateError>
  {
    match report
    case None => Ok(0)
    case Some(issues) => CountUpTo(issues, |issues|)
  }

  /** The exit status: 1 when something was counted, 0 otherwise. */
  function ExitCodeOf(report: Report): Result<int, GateError>
  {
    match CountOf(report)
    case Err(e) => Err(e)
    case Ok(n) => Ok(if n > 0 then 1 else 0)
  }

  // ---------------------------------------------------------------------
  // Properties
  // ---------------------------------------------------------------------

  /** A readable issue adds one exactly when it is counted, and nothing otherwise. */
  lemma StepMeaning(issue: Issue, index: nat)
    ensures Step(issue, index).Ok? <==> Readable(issue)
    ensures Readable(issue) ==> Step(issue, index) == Ok(if Counted(issue) then 1 else 0)
    ensures !Readable(issue) ==> Step(issue, index).error.index == index
  {
  }

  /**
   * The loop succeeds iff every issue read so far is readable; the error names
   * the first unreadable issue; on success the count is at most `k`, and it is
   * zero iff no issue so far is counted.
   */
  lemma {:induction false} CountMeaning(issues: seq<Issue>, k: nat)
    requires k <= |issues|
    ensures CountUpTo(issues, k).Ok? <==> forall i :: 0 <= i < k ==> Readable(issues[i])
    ensures CountUpTo(issues, k).Err? ==>
      var j := CountUpTo(issues, k).error.index;
      j < k && !Readable(issues[j]) && forall i :: 0 <= i < j ==> Readable(issues[i])
    ensures CountUpTo(issues, k).Ok? ==> CountUpTo(issues, k).value <= k
    ensures CountUpTo(issues, k).Ok? ==>
      (CountUpTo(issues, k).value > 0 <==> exists i :: 0 <= i < k && Counted(issues[i]))
    decreases k
  {
    if k > 0 {
      CountMeaning(issues, k - 1);
      StepMeaning(issues[k - 1], k - 1);
      if CountUpTo(issues, k).Ok? && CountUpTo(issues, k).value > 0 && !Counted(issues[k - 1]) {
        var i :| 0 <= i < k - 1 && Counted(issues[i]);
        assert 0 <= i < k && Counted(issues[i]);
      }
    }
  }

  /** Appending an issue: one more when it is counted, the same count when it is not. */
  lemma {:induction false} CountAppend(issues: seq<Issue>, issue: Issue)
    requires CountUpTo(issues, |issues|).Ok? && Readable(issue)
    ensures CountUpTo(issues + [issue], |issues| + 1)
         == Ok(CountUpTo(issues, |issues|).value + (if Counted(issue) then 1 else 0))
  {
    CountPrefix(issues, [issue], |issues|);
    StepMeaning(issue, |issues|);
  }

  /** The count over a prefix does not look past the prefix. */
  lemma {:induction false} CountPrefix(issues: seq<Issue>, more: seq<Issue>, k: nat)
    requires k <= |issues|
    ensures CountUpTo(issues + more, k) == CountUpTo(issues, k)
    decreases k
  {
    if k > 0 {
      CountPrefix(issues, more, k - 1);
      assert (issues + more)[k - 1] == issues[k - 1];
    }
  }

  /** Issues that are not counted never change the count. */
  lemma {:induction false} UncountedAddNothing(issues: seq<Issue>, noise: seq<Issue>)
    requires CountUpTo(issues, |issues|).Ok?
    requires forall i :: 0 <= i < |noise| ==> Readable(noise[i]) && !Counted(noise[i])
    ensures CountUpTo(issues + noise, |issues + noise|) == CountUpTo(issues, |issues|)
    decreases |noise|
  {
    if noise != [] {
      var front := noise[..|noise| - 1];
      var last := noise[|noise| - 1];
      UncountedAddNothing(issues, front);
      assert issues + noise == (issues + front) + [last];
      CountAppend(issues + front, last);
    } else {
      assert issues + noise == issues;
    }
  }

  /** The gate passes on a report without issues, and fails iff some issue is counted. */
  lemma ExitCodeMeaning(report: Report)
    ensures report.None? ==> ExitCodeOf(report) == Ok(0)
    ensures report.Some? ==>
      (ExitCodeOf(report).Ok? <==> forall i :: 0 <= i < |report.value| ==> Readable(report.value[i]))
    ensures ExitCodeOf(report).Ok? ==> (ExitCodeOf(report).value == 0 || ExitCodeOf(report).value == 1)
    ensures report.Some? && ExitCodeOf(report).Ok? ==>
      (ExitCodeOf(report) == Ok(1) <==> exists i :: 0 <= i < |report.value| && Counted(report.value[i]))
  {
    if report.Some? {
      CountMeaning(report.value, |report.value|);
    }
  }

  // ---------------------------------------------------------------------
  // The script
  // ---------------------------------------------------------------------

  /** Lines 10-23: the counting loop, then the exit decision. */
  method DetectSonarErrors(report: Report) returns (r: Result<int, GateError>)
    ensures r == ExitCodeOf(report)
  {
    var nbIssues := 0;
    if report.Some? {
      var issues := report.value;
      for k := 0 to |issues|
        invariant CountUpTo(issues, k) == Ok(nbIssues)
      {
        var issue := issues[k];
        if issue.status.None? {
          CountStaysFailed(issues, k + 1, |issues|);
          return Err(MissingKey(k, "status"));
        }
        if issue.status.value == "OPEN" {
          if issue.severity.None? {
            CountStaysFailed(issues, k + 1, |issues|);
            return Err(MissingKey(k, "severity"));
          }
          if issue.severity.value in BlockingSeverities {
            nbIssues := nbIssues + 1;
          }
        }
      }
    }
    if nbIssues > 0 {
      return Ok(1);
    }
    return Ok(0);
  }

  lemma {:induction false} CountStaysFailed(issues: seq<Issue>, k: nat, m: nat)
    requires k <= m <= |issues| && CountUpTo(issues, k).Err?
    ensures CountUpTo(issues, m) == CountUpTo(issues, k)
    decreases m - k
  {
    if k < m {
      CountStaysFailed(issues, k + 1, m);
    }
  }
}
