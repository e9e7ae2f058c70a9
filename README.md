# Sampled-Value latency analysis and compliance reporting, in Dafny

This project models the decision logic of the offline analysis scripts of a
Sampled-Value (IEC 61850-9-2) test rig, and proves properties of it. It covers
five parts:

- **The colon-log latency report** (`LatencyReport`, `latency_report.dfy`).
  `extract_sv` groups `iteration:stream:counter:timestamp` lines by stream.
  `detect_sv_drop` checks that the subscriber counters of each iteration are
  continuous. To cover the gaps it deletes publisher samples, and it returns
  the number it deleted. Any disorder stops the run.
  `investigate_array_differences` lists the positions where two counter arrays
  differ, plus the tail of the longer one. `compute_latency` subtracts
  publisher timestamps from subscriber timestamps, stream by stream. The
  reducers `compute_min`, `compute_max` and `compute_neglat` follow, and
  `generate_adoc` compares the maximum with the threshold to give PASS or
  FAILED.
- **The id-keyed matcher** (`TimestampAnalysis`, `timestamp_analysis.dfy`).
  This is the body of `main`. The first publisher line for a packet id fixes
  that id's timestamp, and later lines for the same id are recorded as
  duplicates. The intervals between consecutive publications are computed.
  Each subscriber line becomes a latency, a missed id, or nothing (when its id
  is a duplicate). The machine names are taken from the file paths.
- **The shared helpers** (`PostProcessing`, `post_processing.dfy`). These are
  the `SV` record, the per-line reader of `<id> <sec> <nsec> ...` files,
  `hist` and `ts_as_int`.
- **The compliance-matrix reporter** (`ComplianceReport`,
  `compliance_report.dfy`). It reads JUnit property values and decides whether
  a suite has test ids. It emits each result-line anchor only once per run,
  using a set shared by all files. It also covers `check_test`, the row spans
  and ABSENT/PASS/FAIL statuses of a matrix, the machine list, and the exit
  code.
- **The Sonar gate** (`SonarGate`, `sonar_gate.dfy`). It counts the open issues
  at a blocking severity and exits with 1 when there is at least one.

Supporting modules model the Python built-ins the scripts use:

- `Text`: `str.split`, `str.strip`, `str.replace` and `int()`.
- `Ordering`: `sorted`, `np.unique`/`sorted(set(...))`, and Python's ordering
  of strings and of lists of strings.
- `Subsequences`: "the survivors keep their relative order".
- `Wrappers`: `Option` and `Result`.

A `None` is `Option.None`. An exception, `exit(1)` or `die(...)` is an `Err`
outcome naming its cause; the model does not terminate a process.

Where the code changes state step by step, the model is imperative. Each loop
is a method, proved equal to a recursive function that describes the state
after the first `k` steps, and the properties are lemmas about that function.
The `SV` record and the shared anchor set are classes whose methods update
their fields. The `--add_machine_name` global is a boolean parameter. Parsed
JUnit files arrive as sequences of suites of test cases, and a test case
carries its optional `<properties>`.

Three small inputs pin down what the boundary corrections and the gap loop
of `detect_sv_drop` (generate_latency_report.py, lines 65-83) do:

- One iteration of size 3, with publisher counters 0, 1, 2 and subscriber
  counters 0, 2. The last counter is below the iteration size, so the last
  delta is *overwritten* with `3 - 2 - 1 = 0`. That erases the interior gap,
  and nothing is removed (`TrailingCorrectionHidesLastGap`).
- The same logs under the default size of 4000. The last delta becomes 3997.
  A gap equal to the last delta is moved one position right, and `np.delete`
  raises once the deletions run past the three publisher samples
  (`TrailingCorrectionOverrunsGroup`).
- One iteration of size 4, with subscriber counters 0, 2, 3. The gap sits at
  the first delta, so it deletes one sample more than it spans, from the
  iteration's first slot. Publisher samples 0 and 1 are removed and two drops
  are counted (`FirstDeltaGapRemovesOneMore`).

## Model

| member | source | states |
|---|---|---|
| `LatencyReport.ExtractSv` | latency-tests-analysis/scripts/generate_latency_report.py:15-42 | `None` iff some line does not parse; otherwise one group per distinct stream id, in sorted id order, group `j` holding exactly the lines of the `j`-th id |
| `LatencyReport.ParseSvLineRoundTrip` | latency-tests-analysis/scripts/generate_latency_report.py:20-28 | a line written as `iteration:stream:counter:timestamp` reads back as that sample |
| `LatencyReport.ParseSvLineTooFewFields` | latency-tests-analysis/scripts/generate_latency_report.py:20-28 | a line with fewer than four colon-separated fields is refused |
| `LatencyReport.StreamNamesSortedDistinct` | latency-tests-analysis/scripts/generate_latency_report.py:20-21 | the stream names are strictly sorted, and a name is listed iff some line carries it |
| `LatencyReport.GroupOfKeepsFileOrder` | latency-tests-analysis/scripts/generate_latency_report.py:30-38 | a group is made of exactly its stream's lines, in file order, and its three arrays are parallel |
| `LatencyReport.GroupOfNonEmpty` | latency-tests-analysis/scripts/generate_latency_report.py:30-38 | every listed stream has at least one sample |
| `LatencyReport.SvGroupsWellFormed` | latency-tests-analysis/scripts/generate_latency_report.py:33-38 | the iteration, counter and timestamp arrays of every group have equal length |
| `LatencyReport.DetectSvDrop` | latency-tests-analysis/scripts/generate_latency_report.py:44-86 | the repaired publisher group and drop count, or the error that stops it, are those of `SvDropRepair`, the step-by-step description of iterations `0 .. n - 1` |
| `LatencyReport.RepairIterations` | latency-tests-analysis/scripts/generate_latency_report.py:50-85 | the outer loop over iterations `0 .. n - 1` leaves the state `RepairUpTo` gives after `n` passes, or that pass's error |
| `LatencyReport.PlanIteration` | latency-tests-analysis/scripts/generate_latency_report.py:53-68 | the slice from the first to the last subscriber line of the iteration, the disorder check, and the corrected deltas |
| `LatencyReport.CorrectDeltas` | latency-tests-analysis/scripts/generate_latency_report.py:58-68 | the delta array overwritten in place at its ends yields `Corrected`; `None` when a correction meets an empty delta array |
| `LatencyReport.Corrected` | latency-tests-analysis/scripts/generate_latency_report.py:65-68 | fails iff the slice has one sample and a boundary correction applies; otherwise there is one delta per neighbouring pair |
| `LatencyReport.CorrectedEntries` | latency-tests-analysis/scripts/generate_latency_report.py:65-68 | entry by entry: the first delta is *replaced* by `first - 1` when the first counter is positive, else the last by `size - last - 1` when the last counter is below the size, else it is the number of skipped counters |
| `LatencyReport.Gap` | latency-tests-analysis/scripts/generate_latency_report.py:73-79 | a gap whose size equals the last delta moves one position right; otherwise a gap at delta 0 deletes one extra sample starting at the iteration's first slot |
| `LatencyReport.RepairGap` | latency-tests-analysis/scripts/generate_latency_report.py:72-84 | the body of the gap loop: the count it adds is `Gap`'s, and it deletes that many samples at `Gap`'s position |
| `LatencyReport.RepairGaps` | latency-tests-analysis/scripts/generate_latency_report.py:70-85 | the gaps of one iteration are repaired in ascending order as `ApplyGaps` describes, failing once a deletion runs past the end |
| `LatencyReport.DeleteRepeatedly` | latency-tests-analysis/scripts/generate_latency_report.py:80-83 | `count` deletions at one position from the three publisher arrays, `None` once the position is past the end |
| `LatencyReport.DeleteRunCutsRun` | latency-tests-analysis/scripts/generate_latency_report.py:80-83 | `count` deletions at `idx` succeed iff `idx + count` fits, and then cut out exactly rows `idx .. idx + count - 1` |
| `LatencyReport.IterationPlanErrors` | latency-tests-analysis/scripts/generate_latency_report.py:53-63 | a pass fails for a missing iteration iff no subscriber line carries it, and reports disorder iff the iteration's counters do not strictly increase (equal or decreasing) |
| `LatencyReport.SvDropRepairNeedsOrder` | latency-tests-analysis/scripts/generate_latency_report.py:58-63 | on success every iteration `0 .. n - 1` has subscriber lines whose counters strictly increase |
| `LatencyReport.SvDropRepairDisorderIsReal` | latency-tests-analysis/scripts/generate_latency_report.py:58-63 | a reported disorder names an iteration whose counters do not strictly increase |
| `LatencyReport.SvDropRepairRemovesDrops` | latency-tests-analysis/scripts/generate_latency_report.py:72-86 | on success exactly `drops` samples are removed from each of the three publisher arrays, which stay equal-length, and the survivors keep their order |
| `LatencyReport.SvDropRepairIgnoresPublisherValues` | latency-tests-analysis/scripts/generate_latency_report.py:50-84 | where deletions happen and how many is decided by the subscriber data: publisher groups with the same iteration column fail alike or lose the same number of samples |
| `LatencyReport.TrailingCorrectionHidesLastGap` | latency-tests-analysis/scripts/generate_latency_report.py:65-66 | with iteration size 3, subscriber counters 0, 2 against publisher 0, 1, 2 remove nothing: the overwrite erases the gap |
| `LatencyReport.TrailingCorrectionOverrunsGroup` | latency-tests-analysis/scripts/generate_latency_report.py:65-83 | the same logs under the default size 4000 stop with a deletion past the end |
| `LatencyReport.FirstDeltaGapRemovesOneMore` | latency-tests-analysis/scripts/generate_latency_report.py:72-84 | with size 4, subscriber counters 0, 2, 3 remove publisher samples 0 and 1 and count two drops |
| `LatencyReport.InvestigateArrayDifferencesSpec` | latency-tests-analysis/scripts/generate_latency_report.py:88-108 | the mismatch list is empty iff the common prefixes agree and names exactly the differing positions below the shorter length; the extra info is `None` iff the lengths are equal, and otherwise names the longer array with its tail indices and values |
| `LatencyReport.MismatchesSound` | latency-tests-analysis/scripts/generate_latency_report.py:96-97 | every listed triple is a position below the shorter length where the arrays differ, with both values |
| `LatencyReport.MismatchesAscending` | latency-tests-analysis/scripts/generate_latency_report.py:96-97 | the mismatch list is in ascending order of position |
| `LatencyReport.MismatchesComplete` | latency-tests-analysis/scripts/generate_latency_report.py:96-97 | every differing position below the shorter length is listed |
| `LatencyReport.ComputeLatency` | latency-tests-analysis/scripts/generate_latency_report.py:110-126 | the loop filling `latencies` and `sv_drop` slot by slot gives `LatencyOf`, the result of the per-stream passes |
| `LatencyReport.LatencyOfStream` | latency-tests-analysis/scripts/generate_latency_report.py:113-122 | one pass: repair only when the counter lengths differ, then subscriber minus publisher timestamps |
| `LatencyReport.ComputeLatencyEntries` | latency-tests-analysis/scripts/generate_latency_report.py:110-126 | on success the last stream index, and per stream: the publisher group repaired iff the counter lengths differ, and latency = subscriber timestamps minus publisher ones |
| `LatencyReport.ComputeLatencyDropCount` | latency-tests-analysis/scripts/generate_latency_report.py:112-115 | `sv_drop` is the drop count of the last repaired stream, or 0 when none was repaired; it is not a sum |
| `LatencyReport.ComputeLatencyErrors` | latency-tests-analysis/scripts/generate_latency_report.py:110-126 | a failure is either "no streams" (iff there are none) or the error of the first failing stream, every earlier stream having succeeded |
| `LatencyReport.SubtractEqualLengths` | latency-tests-analysis/scripts/generate_latency_report.py:122 | arrays of equal length subtract entrywise |
| `LatencyReport.ComputeMin` | latency-tests-analysis/scripts/generate_latency_report.py:131-132 | `None` iff empty; otherwise an element no larger than any other |
| `LatencyReport.ComputeMax` | latency-tests-analysis/scripts/generate_latency_report.py:134-135 | `None` iff empty; otherwise an element no smaller than any other |
| `LatencyReport.ComputeNegLat` | latency-tests-analysis/scripts/generate_latency_report.py:140-141 | at most the length, and zero iff no value is negative |
| `LatencyReport.ComputeNegLatAppend` | latency-tests-analysis/scripts/generate_latency_report.py:140-141 | the negative count of a concatenation is the sum of the counts |
| `LatencyReport.ComputeNegLatAllNegative` | latency-tests-analysis/scripts/generate_latency_report.py:140-141 | when every value is strictly negative, the count is the length |
| `LatencyReport.VerdictOfLatencies` | latency-tests-analysis/scripts/generate_latency_report.py:211-226 | PASS in green iff the list is non-empty and every latency is strictly below the threshold; FAILED in red iff some latency reaches it (so max == ttot fails); an empty list has no verdict |
| `LatencyReport.VmNameOfPath` | latency-tests-analysis/scripts/generate_latency_report.py:170 | the VM name of `dir/<prefix>_<vm>.<ext>` is `<vm>` |
| `LatencyReport.GenerateReport` | latency-tests-analysis/scripts/generate_latency_report.py:194-226 | `generate_adoc` in source order: the VM name, both logs, the latencies, and stream 0's extremes and verdict, or the first error |
| `LatencyReport.ReportPasses` | latency-tests-analysis/scripts/generate_latency_report.py:199-226 | a report that completes passes iff every latency of the first stream is below the threshold |
| `PostProcessing.SV.constructor` | latency-tests-analysis/timestamp_analysis/post_processing_utils.py:10-21 | `pub_hwts` always stored; `pub_bts` and `pub_ats` stored only when truthy (0 leaves them `None`); `sub_ts` starts `None` |
| `PostProcessing.ParseResultLineShape` | latency-tests-analysis/timestamp_analysis/post_processing_utils.py:30-31 | a line parses iff every paired field is an integer; the id is the first field, followed by floor((n-1)/2) values, value k = `int(f[2k+1])*10^9 + int(f[2k+2])`; an unpaired last field is dropped |
| `PostProcessing.ParsePairsValues` | latency-tests-analysis/timestamp_analysis/post_processing_utils.py:31 | value `k` of the pair reader is `sec * 10^9 + nsec` of pair `k` |
| `PostProcessing.ParseResultLineRoundTrip` | latency-tests-analysis/timestamp_analysis/post_processing_utils.py:30-31 | a line written as `<id> <sec> <nsec>` reads back as that id and `sec * 10^9 + nsec` |
| `PostProcessing.Hist` | latency-tests-analysis/timestamp_analysis/post_processing_utils.py:35-39 | x is strictly sorted and holds exactly the distinct values; y has the same length, with y[i] equal to the number of occurrences of x[i], which is at least 1 |
| `PostProcessing.HistCountsSum` | latency-tests-analysis/timestamp_analysis/post_processing_utils.py:35-39 | the counts add up to the number of data points |
| `PostProcessing.Count` | latency-tests-analysis/timestamp_analysis/post_processing_utils.py:38 | `data.count(k)` is the multiplicity of `k` |
| `PostProcessing.TsAsInt` | latency-tests-analysis/timestamp_analysis/post_processing_utils.py:42-48 | fails with a format error iff there are not exactly three colon fields, or the seconds field does not have exactly two dot parts |
| `PostProcessing.TsAsIntOfParts` | latency-tests-analysis/timestamp_analysis/post_processing_utils.py:43-48 | with integer fields the result is `us + ss*10^6 + mm*60*10^6 + hh*3600*10^6` |
| `PostProcessing.TsAsIntOfFields` | latency-tests-analysis/timestamp_analysis/post_processing_utils.py:48 | any decimal `hh:mm:ss.us` gives that weighted sum, with no range check on mm or ss and the fraction taken as whole microseconds |
| `TimestampAnalysis.ReadStamps` | report-generator/timestamp_analysis/timestamp_analysis.py:41-43 | reads `fields[0]` and `fields[1]` of every line, or the error of the first line that fails |
| `TimestampAnalysis.StampsUpToEntries` | report-generator/timestamp_analysis/timestamp_analysis.py:41-43 | reading succeeds iff every line reads; stamp j comes from line j; a failure is the first failing line's |
| `TimestampAnalysis.PublisherPass` | report-generator/timestamp_analysis/timestamp_analysis.py:34-61 | the publisher loop leaves `pub_data`, the duplicate list and the intervals of `PubUpTo`, and one fresh `SV` per new id, holding that id's timestamp |
| `TimestampAnalysis.PubDataKeys` | report-generator/timestamp_analysis/timestamp_analysis.py:50-54 | an id is in `pub_data` iff some publisher line carries it |
| `TimestampAnalysis.PubDataFirstWins` | report-generator/timestamp_analysis/timestamp_analysis.py:50-55 | the timestamp kept for an id is the one on its first line; later lines never overwrite it |
| `TimestampAnalysis.DoublonsCount` | report-generator/timestamp_analysis/timestamp_analysis.py:50-54 | every line adds an id or a duplicate (duplicates plus distinct ids equal the line count); `key_doublon` holds, in file order, the id of exactly the lines that repeat an earlier id, so an id is listed iff it occurs on two lines; every duplicate is a published id |
| `TimestampAnalysis.IntervalsOfNonZeroStamps` | report-generator/timestamp_analysis/timestamp_analysis.py:57-61 | without a zero timestamp, one interval per line after the first, each the rounded microsecond distance to the previous line, duplicates included |
| `TimestampAnalysis.IntervalSkippedAfterZero` | report-generator/timestamp_analysis/timestamp_analysis.py:57-61 | a line after a zero timestamp adds no interval, since `prev` is falsy |
| `TimestampAnalysis.RoundHalfEvenNearest` | report-generator/timestamp_analysis/timestamp_analysis.py:58 | the rounding is within half a unit of `n / 1000`, with ties going to an even result |
| `TimestampAnalysis.SubscriberPass` | report-generator/timestamp_analysis/timestamp_analysis.py:63-74 | the subscriber loop leaves the latencies and missed ids of `SubUpTo`, and each `SV`'s `sub_ts` is what the loop assigned |
| `TimestampAnalysis.SubAccounting` | report-generator/timestamp_analysis/timestamp_analysis.py:66-74 | duplicate-id lines are ignored, and the latencies plus missed ids number the non-duplicate subscriber lines |
| `TimestampAnalysis.MissedNeverPublished` | report-generator/timestamp_analysis/timestamp_analysis.py:66-74 | `missed_rid_list` holds, in subscriber-file order, the id of exactly the lines whose id is neither a duplicate nor published, one entry per such line |
| `TimestampAnalysis.LatenciesAreDifferences` | report-generator/timestamp_analysis/timestamp_analysis.py:66-74 | `lat_pub_sub` holds, in subscriber-file order, one entry per line whose id is published and not a duplicate, exactly that line's timestamp minus its id's first publisher timestamp |
| `TimestampAnalysis.SubTsIsLastReception` | report-generator/timestamp_analysis/timestamp_analysis.py:72 | `sub_ts` is set exactly for the published, non-duplicate ids that were received, to the timestamp of the last such line |
| `TimestampAnalysis.SkipNothing` | report-generator/timestamp_analysis/timestamp_analysis.py:77-80 | with `skip_first_n = 0`, trimming leaves every list unchanged |
| `TimestampAnalysis.MachineNameOfPath` | report-generator/timestamp_analysis/timestamp_analysis.py:91-92 | the machine name of `<anything>_<name>.<ext>` is `<name>`: the last underscore part, cut at its first dot |
| `TimestampAnalysis.AnalyzeTimestamps` | report-generator/timestamp_analysis/timestamp_analysis.py:34-119 | the body of `main`: the read error, or the trimmed lists, the duplicates, the two histogram series, both machine names and `SV` records that agree with both loops; an empty latency or interval list stops it |
| `ComplianceReport.FirstValueMeaning` | openlab/report.py:21-31 | no value iff no property has the name; otherwise the value of the first property with that name |
| `ComplianceReport.CheckForId` | openlab/report.py:40-49 | `None` iff the suite is empty; true iff the first test's id is truthy |
| `ComplianceReport.AnchorShape` | openlab/report.py:114-117 | an anchor is enclosed in `[[`/`]]` and holds no space |
| `ComplianceReport.ResultCell` | openlab/report.py:124-141 | PASS with green iff the test passed, FAIL with red otherwise |
| `ComplianceReport.LineOfCells` | openlab/report.py:109-141 | a line shows its test's id (when the suite has ids), name and result; an anchor it emits is the test's own `[[id]]` or `[[classname_id]]`, and when the suite has ids that anchor is added to the set |
| `ComplianceReport.LineOfFresh` | openlab/report.py:119-122 | a line emits an anchor only if the anchor was not already in the set |
| `ComplianceReport.AnchorRegistry.constructor` | openlab/report.py:363 | the shared anchor set starts empty |
| `ComplianceReport.AnchorRegistry.WriteTableLine` | openlab/report.py:91-141 | updates the shared set and returns the line as `LineOf` decides |
| `ComplianceReport.AnchorRegistry.WriteSuite` | openlab/report.py:316-317 | the lines of one suite, threading the shared set |
| `ComplianceReport.AnchorRegistry.GenerateXmlAdoc` | openlab/report.py:308-318 | the lines of every suite of one file, or the first empty suite's error |
| `ComplianceReport.SuiteRowsFresh` | openlab/report.py:316-317 | within a suite no anchor is emitted twice or was assigned before, and a suite without ids assigns none |
| `ComplianceReport.SuiteRowsAssigned` | openlab/report.py:119-122 | in a suite with ids every test's anchor ends up in the set |
| `ComplianceReport.TablesAnchorsFresh` | openlab/report.py:363-368 | across all the files of a run, no anchor is emitted twice |
| `ComplianceReport.CheckTest` | openlab/report.py:291-305 | the `present`/`passed` flags over every test of every suite of every file |
| `ComplianceReport.CheckAllMeaning` | openlab/report.py:291-305 | present iff some test has the id (and, with the machine flag, the classname); passed is false iff some such test failed, and stays true when none matches |
| `ComplianceReport.StatusOf` | openlab/report.py:256-284 | ABSENT iff not present; PASS iff present and passed; FAIL otherwise |
| `ComplianceReport.LinkMatchesAnchor` | openlab/report.py:252-255 | a matrix row links to exactly the anchor of a result line it counts |
| `ComplianceReport.WriteMatrixTests` | openlab/report.py:217-285 | the matrix loop gives the rows and return code of `MatrixOf`, or the error of a malformed row |
| `ComplianceReport.MatrixCells` | openlab/report.py:236-284 | row i shows requirement i, its test id, the link, and the status of that test for the machine |
| `ComplianceReport.MatrixSpans` | openlab/report.py:235-250 | a span is written at row i iff its requirement differs from the previous row's (`""` before the first); its value is the number of rows with that requirement |
| `ComplianceReport.SpanOncePerRequirement` | openlab/report.py:197-250 | with sorted rows, no two span cells carry the same requirement |
| `ComplianceReport.MatrixReturnCode` | openlab/report.py:256-285 | the return code is 1 iff some row is ABSENT, else 0; a FAIL does not affect it |
| `ComplianceReport.MatrixWellFormed` | openlab/report.py:236-250 | a matrix whose rows all have two fields is written in full |
| `ComplianceReport.CollectMachines` | openlab/report.py:176-181 | the machine list, gathered over every test of every suite of every file |
| `ComplianceReport.MachinesMeaning` | openlab/report.py:176-181 | the machines are exactly the classnames, each listed once |
| `ComplianceReport.MachinesPrefix` | openlab/report.py:176-181 | first-seen order: the machines of a prefix of the tests come first, in the same order |
| `ComplianceReport.GenerateComplianceMatrix` | openlab/report.py:159-214 | a missing matrix or a non-file stops the run; otherwise the loop over machines gives `ComplianceOf` |
| `ComplianceReport.MachinesRcMeaning` | openlab/report.py:190-214 | the matrix result is 1 iff some machine's rows returned 1, else 0 |
| `ComplianceReport.ExitCodeMeaning` | openlab/report.py:370-375 | the exit code is 1 iff some matrix returned 1, else 0 |
| `ComplianceReport.ReportProperties` | openlab/report.py:355-375 | a completed run emits each anchor at most once and exits with 1 iff some matrix returned 1 |
| `ComplianceReport.Report` | openlab/report.py:355-375 | `__main__`: the tables of every file with one shared anchor set, then every matrix, then the exit code, or the first error |
| `SonarGate.StepMeaning` | openlab/.cqfd/docker/detect_sonar_errors.py:14-20 | a readable issue adds 1 iff its status is exactly OPEN and its severity is BLOCKER, CRITICAL, MAJOR or MINOR, and 0 otherwise |
| `SonarGate.CountMeaning` | openlab/.cqfd/docker/detect_sonar_errors.py:13-20 | the count fails iff some issue cannot be read, and then names the first such issue; otherwise it is positive iff some issue is counted |
| `SonarGate.CountAppend` | openlab/.cqfd/docker/detect_sonar_errors.py:13-20 | one more issue adds one iff it is counted |
| `SonarGate.UncountedAddNothing` | openlab/.cqfd/docker/detect_sonar_errors.py:14-19 | issues that are not OPEN, or are OPEN at another severity (INFO, say), never change the count |
| `SonarGate.ExitCodeMeaning` | openlab/.cqfd/docker/detect_sonar_errors.py:10-23 | a report without `issues` exits 0; otherwise the exit code is 1 iff some issue is counted |
| `SonarGate.DetectSonarErrors` | openlab/.cqfd/docker/detect_sonar_errors.py:10-23 | the counting loop and exit decision give `ExitCodeOf` |

## Left out

- Plotting, directory creation, file reading and writing, and argument
  parsing are left out. So are JSON, CSV and JUnit-XML parsing: the model
  takes the parsed contents (lines, rows, suites, issues) as inputs.
- The AsciiDoc template text is left out. Only the decisions are modelled:
  verdict, colours, span counts, anchors, links, statuses and return codes.
  The printed warnings and diagnostics are left out too.
- `compute_average`, `get_stream_count` and the `statistics` summaries
  (`pstdev`, `median`, `mean`, `min`, `max`) are left out. They are
  floating-point or depend on numpy coercing a ragged list. Only their failure
  on an empty list is kept, as an error.
- `TimestampAnalysis.RoundHalfEven`: this is the exact integer
  round-half-to-even of `n / 1000`. The source divides in floating point
  first, which can differ for differences beyond 2^53 nanoseconds.
- `LatencyReport.ComputeLatency`: `investigate_array_differences` only feeds
  printed warnings, so the pass does not call it. The function is modelled
  and specified on its own.
- `LatencyReport.Subtract`: numpy's length-1 broadcasting is kept as numpy
  does it. Other unequal lengths are a `ShapeMismatch` error.
- Integers are unbounded: numpy's int64 wrap-around is not modelled.
- Python's `int()` is modelled for an optional sign followed by ASCII digits,
  surrounded by ASCII white space (the characters `str.isspace()` accepts
  below 0x80). Non-ASCII white space, underscore digit separators and
  non-ASCII digits are not modelled. `str.splitlines` is replaced by taking a file as a
  sequence of lines.
- `LatencyReport.DetectSvDrop`: it returns the new publisher group. The source
  reassigns the three arrays inside the caller's list, and the caller sees the
  result; in the model `compute_latency` stores the returned group in the
  stream's slot.
- The `extra_ts`, `debug` and `pub_only` branches of `main` are left out,
  because the script fixes them to off. So are the before/after clock
  intervals, which are only filled when `extra_ts` is on.
- `openlab/extended-pdf-converter.rb` is not part of this model: it is a PDF
  renderer extension with no logic.
