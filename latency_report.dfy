/**
 * The latency report of the Sampled Value (IEC 61850-9-2) tests: the
 * publisher and subscriber logs of `iteration:stream:counter:timestamp`
 * lines are grouped by stream, publisher samples the subscriber never
 * received are removed (`detect_sv_drop`), latencies are the differences
 * of the timestamps, and the maximum latency is held against a threshold.
 */
module LatencyReport {
  import opened Wrappers
  import opened Text
  import opened Ordering
  import opened Subsequences

  const GreenColor: string := "#90EE90"
  const RedColor: string := "#F08080"

  /** The number of samples per iteration `compute_latency` assumes. */
  const DefaultIterationSize: int := 4000

  // ---------------------------------------------------------------------
  // Reading a log (`extract_sv`)
  // ---------------------------------------------------------------------

  /** One log line `iteration:stream:counter:timestamp`; fields after the fourth are ignored. */
  datatype SvRecord = SvRecord(iteration: string, stream: string, counter: int, timestamp: int)

  /** The parallel arrays kept for one stream: iteration numbers (as text), counters, timestamps. */
  datatype SvGroup = SvGroup(iterations: seq<string>, counters: seq<int>, timestamps: seq<int>)

  predicate WellFormed(g: SvGroup)
  {
    |g.iterations| == |g.counters| == |g.timestamps|
  }

  /** The samples of a group, one triple per position. */
  function Rows(g: SvGroup): seq<(string, int, int)>
    requires WellFormed(g)
  {
    seq(|g.counters|, i requires 0 <= i < |g.counters| => (g.iterations[i], g.counters[i], g.timestamps[i]))
  }

  /**
   * The fields of one line; `None` where Python raises, that is when the
   * line has fewer than four fields or its counter or timestamp is not an
   * integer.
   */
  function ParseSvLine(line: string): Option<SvRecord>
  {
    var f := Split(line, ':');
    if |f| < 4 then None
    else match (ParseInt(f[2]), ParseInt(f[3]))
      case (Some(cnt), Some(ts)) => Some(SvRecord(f[0], f[1], cnt, ts))
      case _ => None
  }

  /** The line the publisher and subscriber tools write for one sample. */
  function FormatSvLine(iteration: string, stream: string, counter: nat, timestamp: nat): string
  {
    iteration + [':'] + stream + [':'] + Show(counter) + [':'] + Show(timestamp)
  }

  lemma FormattedSvLineSplits(it: string, st: string, a: string, b: string)
    requires ':' !in it && ':' !in st && AllDigits(a) && AllDigits(b)
    ensures Split(it + [':'] + st + [':'] + a + [':'] + b, ':') == [it, st, a, b]
  {
    DigitsHaveNoSeparator(a);
    DigitsHaveNoSeparator(b);
    assert it + [':'] + st + [':'] + a + [':'] + b == it + [':'] + (st + [':'] + a + [':'] + b);
    SplitAtFirst(it, ':', st + [':'] + a + [':'] + b);
    SplitThree(st, a, b, ':');
  }

  /** A written line reads back as the sample it was written from. */
  lemma ParseSvLineRoundTrip(iteration: string, stream: string, counter: nat, timestamp: nat)
    requires ':' !in iteration && ':' !in stream
    ensures ParseSvLine(FormatSvLine(iteration, stream, counter, timestamp))
         == Some(SvRecord(iteration, stream, counter, timestamp))
  {
    FormattedSvLineSplits(iteration, stream, Show(counter), Show(timestamp));
    ParseIntShow(counter);
    ParseIntShow(timestamp);
  }

  /** A line with fewer than four fields is refused. */
  lemma ParseSvLineTooFewFields(line: string)
    requires |Split(line, ':')| < 4
    ensures ParseSvLine(line) == None
  {
  }

  /** Every value present: the values in order; `None` as soon as one is missing. */
  function AllPresent<T>(xs: seq<Option<T>>): (r: Option<seq<T>>)
    ensures r.Some? <==> forall i :: 0 <= i < |xs| ==> xs[i].Some?
    ensures r.Some? ==> |r.value| == |xs| && forall i :: 0 <= i < |xs| ==> xs[i] == Some(r.value[i])
    decreases |xs|
  {
    if xs == [] then Some([])
    else
      var rest := AllPresent(xs[1..]);
      assert forall i :: 1 <= i < |xs| ==> xs[1..][i - 1] == xs[i];
      match (xs[0], rest)
      case (Some(x), Some(ys)) => Some([x] + ys)
      case _ => None
  }

  /** Every line of the file parsed; `None` when any one of them is refused. */
  function ParseSvLines(lines: seq<string>): (r: Option<seq<SvRecord>>)
    ensures r.Some? <==> forall i :: 0 <= i < |lines| ==> ParseSvLine(lines[i]).Some?
    ensures r.Some? ==>
      |r.value| == |lines| && forall i :: 0 <= i < |lines| ==> ParseSvLine(lines[i]) == Some(r.value[i])
  {
    var parsed := seq(|lines|, i requires 0 <= i < |lines| => ParseSvLine(lines[i]));
    assert forall i :: 0 <= i < |lines| ==> parsed[i] == ParseSvLine(lines[i]);
    AllPresent(parsed)
  }

  /** The stream id of every line, in file order. */
  function Ids(recs: seq<SvRecord>): seq<string>
  {
    seq(|recs|, i requires 0 <= i < |recs| => recs[i].stream)
  }

  /** `np.unique` of the stream ids: sorted, each id once. */
  function StreamNames(recs: seq<SvRecord>): seq<string>
  {
    SortedDistinct(Ids(recs), StringLess)
  }

  /** `np.where(sv_id == name)`: the positions of the lines of one stream, ascending. */
  function Positions(recs: seq<SvRecord>, name: string): (p: seq<nat>)
    ensures forall i, j :: 0 <= i < j < |p| ==> p[i] < p[j]
    ensures forall i :: 0 <= i < |p| ==> p[i] < |recs|
    ensures forall k :: 0 <= k < |recs| ==> (recs[k].stream == name <==> k in p)
    decreases |recs|
  {
    if recs == [] then []
    else
      var front := Positions(recs[..|recs| - 1], name);
      if recs[|recs| - 1].stream == name then front + [|recs| - 1] else front
  }

  /** The group of one stream: its lines' fields, in file order. */
  function GroupOf(recs: seq<SvRecord>, name: string): (g: SvGroup)
    ensures WellFormed(g)
  {
    var p := Positions(recs, name);
    SvGroup(seq(|p|, i requires 0 <= i < |p| => recs[p[i]].iteration),
            seq(|p|, i requires 0 <= i < |p| => recs[p[i]].counter),
            seq(|p|, i requires 0 <= i < |p| => recs[p[i]].timestamp))
  }

  /** The groups `extract_sv` returns for a file, or `None` when it raises. */
  function SvGroupsOf(lines: seq<string>): Option<seq<SvGroup>>
  {
    match ParseSvLines(lines)
    case None => None
    case Some(recs) =>
      var names := StreamNames(recs);
      Some(seq(|names|, j requires 0 <= j < |names| => GroupOf(recs, names[j])))
  }

  /** Every group `extract_sv` returns has parallel arrays. */
  lemma SvGroupsWellFormed(lines: seq<string>)
    requires SvGroupsOf(lines).Some?
    ensures forall j :: 0 <= j < |SvGroupsOf(lines).value| ==> WellFormed(SvGroupsOf(lines).value[j])
  {
  }

  /**
   * `extract_sv`: one group per distinct stream id, in sorted id order,
   * filled slot by slot. `None` when a line cannot be read.
   */
  method ExtractSv(lines: seq<string>) returns (sv: Option<seq<SvGroup>>)
    ensures sv == SvGroupsOf(lines)
    ensures sv.None? <==> ParseSvLines(lines).None?
    ensures sv.Some? ==>
      var recs := ParseSvLines(lines).value;
      |sv.value| == |StreamNames(recs)|
      && forall j :: 0 <= j < |sv.value| ==> sv.value[j] == GroupOf(recs, StreamNames(recs)[j])
  {
    var parsed := ParseSvLines(lines);
    if parsed.None? {
      return None;
    }
    var recs := parsed.value;
    var names := StreamNames(recs);
    var groups: seq<SvGroup> := seq(|names|, _ => SvGroup([], [], []));
    for j := 0 to |names|
      invariant |groups| == |names|
      invariant forall i :: 0 <= i < j ==> groups[i] == GroupOf(recs, names[i])
    {
      groups := groups[j := GroupOf(recs, names[j])];
    }
    assert groups == seq(|names|, j requires 0 <= j < |names| => GroupOf(recs, names[j]));
    return Some(groups);
  }

  /** The stream names are strictly sorted and are exactly the ids that occur. */
  lemma StreamNamesSortedDistinct(recs: seq<SvRecord>)
    ensures StrictlySorted(StreamNames(recs), StringLess)
    ensures forall name :: name in StreamNames(recs) <==> exists k :: 0 <= k < |recs| && recs[k].stream == name
  {
    StringLessStrictTotal();
    SortedDistinctStrictlySorted(Ids(recs), StringLess);
    assert Elems(StreamNames(recs)) == Elems(Ids(recs));
    forall name ensures name in StreamNames(recs) <==> exists k :: 0 <= k < |recs| && recs[k].stream == name {
      if name in StreamNames(recs) {
        assert name in Elems(Ids(recs));
        var k :| 0 <= k < |recs| && Ids(recs)[k] == name;
      } else {
        forall k | 0 <= k < |recs| ensures recs[k].stream != name {
          assert Ids(recs)[k] in Elems(Ids(recs));
        }
      }
    }
  }

  /** The sample of one line, as a group row. */
  function RecordRow(r: SvRecord): (string, int, int)
  {
    (r.iteration, r.counter, r.timestamp)
  }

  /** `g` is made of the lines at positions `p`, and `p` lists every line of stream `name`. */
  ghost predicate DrawsStream(g: SvGroup, recs: seq<SvRecord>, name: string, p: seq<nat>)
    requires WellFormed(g)
  {
    && PicksFrom(Rows(g), seq(|recs|, i requires 0 <= i < |recs| => RecordRow(recs[i])), p)
    && forall k :: 0 <= k < |recs| ==> (recs[k].stream == name <==> k in p)
  }

  /** A group holds, in file order, exactly the lines of its stream. */
  lemma GroupOfKeepsFileOrder(recs: seq<SvRecord>, name: string)
    ensures exists p :: DrawsStream(GroupOf(recs, name), recs, name, p)
  {
    var p := Positions(recs, name);
    assert DrawsStream(GroupOf(recs, name), recs, name, p);
  }

  /** Every stream that occurs has a non-empty group. */
  lemma GroupOfNonEmpty(recs: seq<SvRecord>, name: string)
    requires name in StreamNames(recs)
    ensures |GroupOf(recs, name).counters| >= 1
  {
    StreamNamesSortedDistinct(recs);
    var k :| 0 <= k < |recs| && recs[k].stream == name;
    assert k in Positions(recs, name);
  }

  // ---------------------------------------------------------------------
  // Repairing the publisher data (`detect_sv_drop`)
  // ---------------------------------------------------------------------

  /** How `detect_sv_drop` stops instead of returning a drop count. */
  datatype DropError =
    | BadIterationNumber              // `astype(int)` raises ValueError
    | MissingIteration(iteration: nat)  // no subscriber line carries the iteration: IndexError
    | Disordered(iteration: nat)        // "Fatal: SV disordered detected", exit(1)
    | SingleSample(iteration: nat)      // `diffs[-1]` / `diffs[0]` on an empty delta array: IndexError
    | DeletionOutOfRange(iteration: nat) // `np.delete` past the end: IndexError

  /** The repaired publisher group and the number of samples counted as dropped. */
  datatype Repair = Repair(pub: SvGroup, drops: nat)

  /** numpy's `astype(int)` on an array of strings. */
  function ParseAll(texts: seq<string>): (r: Option<seq<int>>)
    ensures r.Some? <==> forall i :: 0 <= i < |texts| ==> ParseInt(texts[i]).Some?
    ensures r.Some? ==>
      |r.value| == |texts| && forall i :: 0 <= i < |texts| ==> ParseInt(texts[i]) == Some(r.value[i])
    decreases |texts|
  {
    if texts == [] then Some([])
    else
      var rest := ParseAll(texts[1..]);
      assert forall i :: 1 <= i < |texts| ==> texts[1..][i - 1] == texts[i];
      match (ParseInt(texts[0]), rest)
      case (Some(x), Some(xs)) => Some([x] + xs)
      case _ => None
  }

  /** `np.where(xs == k)[0][0]`: the first position holding `k`. */
  function FirstIndex(xs: seq<int>, k: int): (r: Option<nat>)
    ensures r.None? <==> k !in xs
    ensures r.Some? ==> r.value < |xs| && xs[r.value] == k
    decreases |xs|
  {
    if xs == [] then None
    else if xs[0] == k then Some(0)
    else match FirstIndex(xs[1..], k)
      case None => None
      case Some(i) => Some(i + 1)
  }

  /** `np.where(xs == k)[0][-1]`: the last position holding `k`. */
  function LastIndex(xs: seq<int>, k: int): (r: Option<nat>)
    ensures r.None? <==> k !in xs
    ensures r.Some? ==> r.value < |xs| && xs[r.value] == k
    decreases |xs|
  {
    if xs == [] then None
    else if xs[|xs| - 1] == k then Some(|xs| - 1)
    else LastIndex(xs[..|xs| - 1], k)
  }

  /** No position before the first one holds `k`. */
  lemma {:induction false} FirstIndexIsFirst(xs: seq<int>, k: int)
    requires k in xs
    ensures forall j :: 0 <= j < FirstIndex(xs, k).value ==> xs[j] != k
    decreases |xs|
  {
    if xs[0] != k {
      FirstIndexIsFirst(xs[1..], k);
      forall j | 0 <= j < FirstIndex(xs, k).value ensures xs[j] != k {
        if j > 0 {
          assert xs[j] == xs[1..][j - 1];
        }
      }
    }
  }

  /** No position after the last one holds `k`. */
  lemma {:induction false} LastIndexIsLast(xs: seq<int>, k: int)
    requires k in xs
    ensures forall j :: LastIndex(xs, k).value < j < |xs| ==> xs[j] != k
    decreases |xs|
  {
    if xs[|xs| - 1] != k {
      assert k in xs[..|xs| - 1] by {
        var i :| 0 <= i < |xs| && xs[i] == k;
        assert xs[..|xs| - 1][i] == k;
      }
      LastIndexIsLast(xs[..|xs| - 1], k);
    }
  }

  /**
   * The subscriber counters of iteration `k`: everything from the first to
   * the last subscriber line carrying `k`.
   */
  function IterationSlice(its: seq<int>, cnt: seq<int>, k: int): (c: seq<int>)
    requires |its| == |cnt| && k in its
    ensures |c| >= 1
  {
    FirstIndexIsFirst(its, k);
    cnt[FirstIndex(its, k).value..LastIndex(its, k).value + 1]
  }

  /** `np.diff(c) - 1`: the number of counter values skipped between neighbours. */
  function Deltas(c: seq<int>): (d: seq<int>)
    requires |c| >= 1
    ensures |d| == |c| - 1
  {
    seq(|c| - 1, i requires 0 <= i < |c| - 1 => c[i + 1] - c[i] - 1)
  }

  predicate HasNegative(d: seq<int>)
  {
    exists i :: 0 <= i < |d| && d[i] < 0
  }

  predicate StrictlyIncreasing(c: seq<int>)
  {
    forall i :: 0 <= i < |c| - 1 ==> c[i] < c[i + 1]
  }

  /**
   * The deltas after the boundary corrections: when the last counter is
   * below the iteration size, the last delta is overwritten with the
   * number of counter values missing at the end; then, when the first
   * counter is above 0, the first delta is overwritten with the number
   * missing at the start. `None` when a correction applies but there is no
   * delta to overwrite.
   */
  function Corrected(c: seq<int>, size: int): (r: Option<seq<int>>)
    requires |c| >= 1
    ensures r.None? <==> |c| == 1 && (c[0] < size || c[0] > 0)
    ensures r.Some? ==> |r.value| == |c| - 1
  {
    var d := Deltas(c);
    var last := c[|c| - 1];
    if |d| == 0 && (size - last > 0 || c[0] > 0) then None
    else
      var d1 := if size - last > 0 then d[|d| - 1 := size - last - 1] else d;
      var d2 := if c[0] > 0 then d1[0 := c[0] - 1] else d1;
      Some(d2)
  }

  /**
   * Entry by entry: the first delta is `c[0] - 1` when the first counter is
   * above 0; otherwise the last delta is `size - c[last] - 1` when the last
   * counter is below the iteration size; every other delta is the number of
   * counter values skipped.
   */
  lemma CorrectedEntries(c: seq<int>, size: int)
    requires |c| >= 1
    ensures var r := Corrected(c, size);
      r.Some? ==> forall i :: 0 <= i < |c| - 1 ==>
        (r.value[i] == if i == 0 && c[0] > 0 then c[0] - 1
                       else if i == |c| - 2 && c[|c| - 1] < size then size - c[|c| - 1] - 1
                       else c[i + 1] - c[i] - 1)
  {
  }

  /**
   * Where the publisher samples for the gap at delta `disc` are removed,
   * relative to the iteration's first subscriber position, and how many.
   * A gap whose size equals the last delta is moved one position to the
   * right; otherwise a gap at delta 0 removes one sample more, starting at
   * the iteration's first position.
   */
  function Gap(d: seq<int>, disc: nat): (g: (nat, nat))
    requires disc < |d| && d[disc] > 0
    ensures d[disc] == d[|d| - 1] ==> g == (disc + 2, d[disc])
    ensures d[disc] != d[|d| - 1] && disc == 0 ==> g == (0, d[0] + 1)
    ensures d[disc] != d[|d| - 1] && disc > 0 ==> g == (disc + 1, d[disc])
  {
    var lost := d[disc];
    var at: int := if lost == d[|d| - 1] then disc + 1 else disc;
    if at == 0 then (0, lost + 1) else ((at + 1) as nat, lost)
  }

  /** `np.delete` at position `i` on each of the three arrays. */
  function DeleteAt(g: SvGroup, i: nat): (h: SvGroup)
    requires WellFormed(g) && i < |g.counters|
    ensures WellFormed(h) && |h.counters| == |g.counters| - 1
  {
    SvGroup(g.iterations[..i] + g.iterations[i + 1..],
            g.counters[..i] + g.counters[i + 1..],
            g.timestamps[..i] + g.timestamps[i + 1..])
  }

  /** `count` deletions at the same position; `None` once the position is past the end. */
  function DeleteRun(g: SvGroup, idx: nat, count: nat): (r: Option<SvGroup>)
    requires WellFormed(g)
    ensures r.Some? ==> WellFormed(r.value) && |r.value.counters| + count == |g.counters|
    decreases count
  {
    if count == 0 then Some(g)
    else if idx < |g.counters| then DeleteRun(DeleteAt(g, idx), idx, count - 1)
    else None
  }

  /** `count` deletions at `idx` fit exactly when the group has a row `idx + count - 1`. */
  lemma {:induction false} DeleteRunFits(g: SvGroup, idx: nat, count: nat)
    requires WellFormed(g)
    ensures DeleteRun(g, idx, count).Some? <==> count == 0 || idx + count <= |g.counters|
    decreases count
  {
    if count > 0 && idx < |g.counters| {
      DeleteRunFits(DeleteAt(g, idx), idx, count - 1);
    }
  }

  /** Deleting `count` times at `idx` cuts out the rows `idx .. idx + count - 1`, if there are that many. */
  lemma {:induction false} DeleteRunCutsRun(g: SvGroup, idx: nat, count: nat)
    requires WellFormed(g)
    ensures DeleteRun(g, idx, count).Some? <==> count == 0 || idx + count <= |g.counters|
    ensures idx + count <= |g.counters| ==>
      DeleteRun(g, idx, count).Some? && Rows(DeleteRun(g, idx, count).value) == Rows(g)[..idx] + Rows(g)[idx + count..]
    decreases count
  {
    if count > 0 && idx < |g.counters| {
      var h := DeleteAt(g, idx);
      DeleteRunCutsRun(h, idx, count - 1);
      assert Rows(h) == Rows(g)[..idx] + Rows(g)[idx + 1..];
      if idx + count <= |g.counters| {
        assert Rows(h)[..idx] + Rows(h)[idx + count - 1..] == Rows(g)[..idx] + Rows(g)[idx + count..];
      }
    }
  }

  /**
   * The publisher group after the gaps among deltas `0 .. j - 1` of one
   * iteration have been repaired, in ascending order as `np.where(diffs > 0)`
   * lists them, with the number of samples removed so far.
   */
  function ApplyGaps(g: SvGroup, start: nat, d: seq<int>, j: nat): (r: Option<(SvGroup, nat)>)
    requires WellFormed(g) && j <= |d|
    ensures r.Some? ==> WellFormed(r.value.0) && |r.value.0.counters| + r.value.1 == |g.counters|
    decreases j
  {
    if j == 0 then Some((g, 0))
    else
      var prev := ApplyGaps(g, start, d, j - 1);
      if prev.None? || d[j - 1] <= 0 then prev
      else
        var gap := Gap(d, j - 1);
        var next := DeleteRun(prev.value.0, start + gap.0, gap.1);
        if next.None? then None else Some((next.value, prev.value.1 + gap.1))
  }

  /**
   * What one pass of the outer loop of `detect_sv_drop` takes from the
   * subscriber data: the position of the iteration's first subscriber line
   * and the corrected deltas. It depends on the subscriber data only.
   */
  datatype Plan = Plan(start: nat, deltas: seq<int>)

  /** The plan for iteration `k`, or the error the pass stops with before deleting anything. */
  function IterationPlan(its: seq<int>, cnt: seq<int>, k: nat, size: int): Result<Plan, DropError>
    requires |its| == |cnt|
  {
    var first := FirstIndex(its, k);
    var last := LastIndex(its, k);
    if first.None? || last.None? then Err(MissingIteration(k))
    else
      FirstIndexIsFirst(its, k);
      var c := cnt[first.value..last.value + 1];
      if HasNegative(Deltas(c)) then Err(Disordered(k))
      else
        var d := Corrected(c, size);
        if d.None? then Err(SingleSample(k)) else Ok(Plan(first.value, d.value))
  }

  /** The plans of iterations `0 .. n - 1`. */
  function Plans(its: seq<int>, cnt: seq<int>, size: int, n: nat): (plans: seq<Result<Plan, DropError>>)
    requires |its| == |cnt|
    ensures |plans| == n
  {
    seq(n, k requires 0 <= k < n => IterationPlan(its, cnt, k, size))
  }

  /** Consecutive counters that do not strictly increase are exactly the negative deltas. */
  lemma DisorderIsNegativeDelta(c: seq<int>)
    requires |c| >= 1
    ensures HasNegative(Deltas(c)) <==> !StrictlyIncreasing(c)
  {
    if HasNegative(Deltas(c)) {
      var i :| 0 <= i < |c| - 1 && Deltas(c)[i] < 0;
    } else {
      forall i | 0 <= i < |c| - 1 ensures c[i] < c[i + 1] {
        assert Deltas(c)[i] >= 0;
      }
    }
  }

  /**
   * A pass fails for a missing iteration exactly when no subscriber line
   * carries it, and stops as disordered exactly when the iteration's
   * counters do not strictly increase (an equal or a smaller successor).
   */
  lemma IterationPlanErrors(its: seq<int>, cnt: seq<int>, k: nat, size: int)
    requires |its| == |cnt|
    ensures IterationPlan(its, cnt, k, size) == Err(MissingIteration(k)) <==> k !in its
    ensures IterationPlan(its, cnt, k, size) == Err(Disordered(k)) <==>
      k in its && !StrictlyIncreasing(IterationSlice(its, cnt, k))
  {
    if k in its {
      DisorderIsNegativeDelta(IterationSlice(its, cnt, k));
    }
  }

  /** On a plan, the pass removes the samples of every gap, in order. */
  function RepairIteration(g: SvGroup, k: nat, plan: Result<Plan, DropError>): (r: Result<(SvGroup, nat), DropError>)
    requires WellFormed(g)
    ensures r.Ok? ==> WellFormed(r.value.0) && |r.value.0.counters| + r.value.1 == |g.counters|
  {
    if plan.Err? then Err(plan.error)
    else
      var p := plan.value;
      var res := ApplyGaps(g, p.start, p.deltas, |p.deltas|);
      if res.None? then Err(DeletionOutOfRange(k)) else Ok(res.value)
  }

  /** The publisher group after the passes for iterations `0 .. k - 1`, with the drops counted so far. */
  function RepairUpTo(pub: SvGroup, plans: seq<Result<Plan, DropError>>, k: nat): (r: Result<(SvGroup, nat), DropError>)
    requires WellFormed(pub) && k <= |plans|
    ensures r.Ok? ==> WellFormed(r.value.0) && |r.value.0.counters| + r.value.1 == |pub.counters|
    decreases k
  {
    if k == 0 then Ok((pub, 0))
    else
      var prev := RepairUpTo(pub, plans, k - 1);
      if prev.Err? then prev
      else
        var step := RepairIteration(prev.value.0, k - 1, plans[k - 1]);
        if step.Err? then Err(step.error) else Ok((step.value.0, prev.value.1 + step.value.1))
  }

  /** The number of distinct publisher iterations, `len(np.unique(...))`. */
  function IterationCount(pubIts: seq<int>): nat
  {
    |SortedDistinct(pubIts, IntLess)|
  }

  /**
   * What `detect_sv_drop(pub, sub, size)` does: iterations `0 .. n - 1`
   * are visited, `n` being the number of distinct publisher iteration
   * numbers; the subscriber iteration numbers are read only when `n > 0`.
   */
  function SvDropRepair(pub: SvGroup, sub: SvGroup, size: int): (r: Result<Repair, DropError>)
    requires WellFormed(pub) && WellFormed(sub)
    ensures r.Ok? ==> WellFormed(r.value.pub) && |r.value.pub.counters| == |pub.counters| - r.value.drops
  {
    match ParseAll(pub.iterations)
    case None => Err(BadIterationNumber)
    case Some(pubIts) =>
      var n := IterationCount(pubIts);
      if n == 0 then Ok(Repair(pub, 0))
      else match ParseAll(sub.iterations)
        case None => Err(BadIterationNumber)
        case Some(subIts) =>
          var res := RepairUpTo(pub, Plans(subIts, sub.counters, size, n), n);
          if res.Err? then Err(res.error) else Ok(Repair(res.value.0, res.value.1))
  }

  /** Delta `j` adds its gap, if it is one, to the repairs of the deltas before it. */
  lemma ApplyGapsNext(g: SvGroup, start: nat, d: seq<int>, j: nat, cur: SvGroup, total: nat)
    requires WellFormed(g) && j < |d| && WellFormed(cur)
    requires ApplyGaps(g, start, d, j) == Some((cur, total))
    ensures d[j] <= 0 ==> ApplyGaps(g, start, d, j + 1) == Some((cur, total))
    ensures d[j] > 0 ==>
      var gap := Gap(d, j);
      var next := DeleteRun(cur, start + gap.0, gap.1);
      ApplyGaps(g, start, d, j + 1) == if next.None? then None else Some((next.value, total + gap.1))
  {
  }

  lemma {:induction false} ApplyGapsStaysFailed(g: SvGroup, start: nat, d: seq<int>, j: nat, m: nat)
    requires WellFormed(g) && j <= m <= |d|
    requires ApplyGaps(g, start, d, j).None?
    ensures ApplyGaps(g, start, d, m).None?
    decreases m - j
  {
    if j < m {
      ApplyGapsStaysFailed(g, start, d, j + 1, m);
    }
  }

  /** The pass for iteration `k` extends the passes before it. */
  lemma RepairUpToNext(pub: SvGroup, plans: seq<Result<Plan, DropError>>, k: nat, cur: SvGroup, total: nat)
    requires WellFormed(pub) && k < |plans| && WellFormed(cur)
    requires RepairUpTo(pub, plans, k) == Ok((cur, total))
    ensures var step := RepairIteration(cur, k, plans[k]);
      RepairUpTo(pub, plans, k + 1) == if step.Err? then Err(step.error) else Ok((step.value.0, total + step.value.1))
  {
  }

  lemma {:induction false} RepairUpToStaysFailed(pub: SvGroup, plans: seq<Result<Plan, DropError>>, k: nat, m: nat)
    requires WellFormed(pub) && k <= m <= |plans|
    requires RepairUpTo(pub, plans, k).Err?
    ensures RepairUpTo(pub, plans, m) == RepairUpTo(pub, plans, k)
    decreases m - k
  {
    if k < m {
      RepairUpToStaysFailed(pub, plans, k + 1, m);
    }
  }

  /** The errors a plan stops with name the iteration they occur in. */
  lemma IterationPlanErrorNamesIteration(its: seq<int>, cnt: seq<int>, k: nat, size: int)
    requires |its| == |cnt|
    ensures var p := IterationPlan(its, cnt, k, size);
      p.Err? ==> !p.error.BadIterationNumber? && !p.error.DeletionOutOfRange? && p.error.iteration == k
  {
  }

  /** Gaps never ask for zero deletions. */
  lemma GapCountPositive(d: seq<int>, disc: nat)
    requires disc < |d| && d[disc] > 0
    ensures Gap(d, disc).1 >= 1
  {
  }

  /** The survivors of the gap repairs keep their relative order. */
  lemma {:induction false} ApplyGapsKeepsOrder(g: SvGroup, start: nat, d: seq<int>, j: nat)
    requires WellFormed(g) && j <= |d| && ApplyGaps(g, start, d, j).Some?
    ensures IsSubsequence(Rows(ApplyGaps(g, start, d, j).value.0), Rows(g))
    decreases j
  {
    if j == 0 {
      SubsequenceReflexive(Rows(g));
    } else {
      var prev := ApplyGaps(g, start, d, j - 1);
      ApplyGapsKeepsOrder(g, start, d, j - 1);
      if d[j - 1] > 0 {
        var h := prev.value.0;
        var gap := Gap(d, j - 1);
        GapCountPositive(d, j - 1);
        DeleteRunCutsRun(h, start + gap.0, gap.1);
        DeletedRunIsSubsequence(Rows(h), start + gap.0, gap.1);
        SubsequenceTransitive(Rows(ApplyGaps(g, start, d, j).value.0), Rows(h), Rows(g));
      }
    }
  }

  /** The survivors of all passes keep their relative order. */
  lemma {:induction false} RepairUpToKeepsOrder(pub: SvGroup, plans: seq<Result<Plan, DropError>>, k: nat)
    requires WellFormed(pub) && k <= |plans| && RepairUpTo(pub, plans, k).Ok?
    ensures IsSubsequence(Rows(RepairUpTo(pub, plans, k).value.0), Rows(pub))
    decreases k
  {
    if k == 0 {
      SubsequenceReflexive(Rows(pub));
    } else {
      RepairUpToKeepsOrder(pub, plans, k - 1);
      var h := RepairUpTo(pub, plans, k - 1).value.0;
      var p := plans[k - 1].value;
      ApplyGapsKeepsOrder(h, p.start, p.deltas, |p.deltas|);
      SubsequenceTransitive(Rows(RepairUpTo(pub, plans, k).value.0), Rows(h), Rows(pub));
    }
  }

  /**
   * On success the repaired publisher group is the original one with
   * exactly `drops` samples removed from each of its three arrays, the
   * others keeping their relative order.
   */
  lemma SvDropRepairRemovesDrops(pub: SvGroup, sub: SvGroup, size: int)
    requires WellFormed(pub) && WellFormed(sub) && SvDropRepair(pub, sub, size).Ok?
    ensures var rep := SvDropRepair(pub, sub, size).value;
      && WellFormed(rep.pub)
      && |rep.pub.iterations| == |rep.pub.counters| == |rep.pub.timestamps| == |pub.counters| - rep.drops
      && IsSubsequence(Rows(rep.pub), Rows(pub))
  {
    var pubIts := ParseAll(pub.iterations).value;
    var n := IterationCount(pubIts);
    if n == 0 {
      SubsequenceReflexive(Rows(pub));
    } else {
      var subIts := ParseAll(sub.iterations).value;
      RepairUpToKeepsOrder(pub, Plans(subIts, sub.counters, size, n), n);
    }
  }

  /** Every pass before a successful `k`-th one had a plan. */
  lemma {:induction false} RepairUpToHadPlans(pub: SvGroup, plans: seq<Result<Plan, DropError>>, k: nat)
    requires WellFormed(pub) && k <= |plans| && RepairUpTo(pub, plans, k).Ok?
    ensures forall i :: 0 <= i < k ==> plans[i].Ok?
    decreases k
  {
    if k > 0 {
      RepairUpToHadPlans(pub, plans, k - 1);
    }
  }

  /** A failed run of passes failed in one of them: on its plan, or deleting past the end. */
  lemma {:induction false} RepairUpToErrorOrigin(pub: SvGroup, plans: seq<Result<Plan, DropError>>, k: nat)
    requires WellFormed(pub) && k <= |plans| && RepairUpTo(pub, plans, k).Err?
    ensures exists i :: (0 <= i < k &&
      (plans[i] == Err(RepairUpTo(pub, plans, k).error) || RepairUpTo(pub, plans, k).error == DeletionOutOfRange(i)))
    decreases k
  {
    if RepairUpTo(pub, plans, k - 1).Err? {
      RepairUpToErrorOrigin(pub, plans, k - 1);
    } else {
      assert plans[k - 1] == Err(RepairUpTo(pub, plans, k).error)
          || RepairUpTo(pub, plans, k).error == DeletionOutOfRange(k - 1);
    }
  }

  /**
   * Disorder is fatal: `detect_sv_drop` succeeds only when every iteration
   * `0 .. n - 1` has subscriber lines whose counters strictly increase.
   */
  lemma SvDropRepairNeedsOrder(pub: SvGroup, sub: SvGroup, size: int)
    requires WellFormed(pub) && WellFormed(sub) && SvDropRepair(pub, sub, size).Ok?
    requires IterationCount(ParseAll(pub.iterations).value) > 0
    ensures ParseAll(sub.iterations).Some?
    ensures var its := ParseAll(sub.iterations).value;
      forall k :: 0 <= k < IterationCount(ParseAll(pub.iterations).value) ==>
        k in its && StrictlyIncreasing(IterationSlice(its, sub.counters, k))
  {
    var n := IterationCount(ParseAll(pub.iterations).value);
    var its := ParseAll(sub.iterations).value;
    var plans := Plans(its, sub.counters, size, n);
    RepairUpToHadPlans(pub, plans, n);
    forall k | 0 <= k < n ensures k in its && StrictlyIncreasing(IterationSlice(its, sub.counters, k)) {
      assert plans[k].Ok?;
      IterationPlanErrors(its, sub.counters, k, size);
    }
  }

  /** A reported disorder is real: the iteration's subscriber counters do not strictly increase. */
  lemma SvDropRepairDisorderIsReal(pub: SvGroup, sub: SvGroup, size: int, k: nat)
    requires WellFormed(pub) && WellFormed(sub) && SvDropRepair(pub, sub, size) == Err(Disordered(k))
    ensures ParseAll(sub.iterations).Some?
    ensures var its := ParseAll(sub.iterations).value;
      k in its && !StrictlyIncreasing(IterationSlice(its, sub.counters, k))
  {
    var n := IterationCount(ParseAll(pub.iterations).value);
    var its := ParseAll(sub.iterations).value;
    var plans := Plans(its, sub.counters, size, n);
    RepairUpToErrorOrigin(pub, plans, n);
    var i :| 0 <= i < n && (plans[i] == Err(Disordered(k)) || Disordered(k) == DeletionOutOfRange(i));
    IterationPlanErrorNamesIteration(its, sub.counters, i, size);
    IterationPlanErrors(its, sub.counters, i, size);
  }

  /** Iteration 0 of a publisher log with counters `0 .. |ts| - 1`. */
  function IterationZero(counters: seq<int>, ts: seq<int>): (g: SvGroup)
    requires |counters| == |ts|
    ensures WellFormed(g)
  {
    SvGroup(seq(|ts|, _ => "0"), counters, ts)
  }

  lemma ParseZeros(n: nat)
    ensures ParseAll(seq(n, _ => "0")) == Some(seq(n, _ => 0))
  {
    ParseIntShow(0);
    assert Show(0) == "0";
    var texts := seq(n, _ => "0");
    assert forall i :: 0 <= i < n ==> ParseInt(texts[i]) == Some(0);
    assert ParseAll(texts).value == seq(n, _ => 0);
  }

  lemma OneIteration()
    ensures IterationCount([0, 0, 0]) == 1
  {
    assert [0, 0, 0][1..] == [0, 0] && [0, 0][1..] == [0];
    assert SortedDistinct([0], IntLess) == [0];
    assert SortedDistinct([0, 0], IntLess) == [0];
    assert SortedDistinct([0, 0, 0], IntLess) == [0];
  }

  /** With a single publisher iteration, `detect_sv_drop` is that iteration's plan applied to the publisher group. */
  lemma RepairOfOnePlan(pub: SvGroup, sub: SvGroup, size: int, plan: Plan)
    requires WellFormed(pub) && WellFormed(sub)
    requires ParseAll(pub.iterations).Some? && IterationCount(ParseAll(pub.iterations).value) == 1
    requires ParseAll(sub.iterations).Some?
    requires IterationPlan(ParseAll(sub.iterations).value, sub.counters, 0, size) == Ok(plan)
    ensures var res := ApplyGaps(pub, plan.start, plan.deltas, |plan.deltas|);
      SvDropRepair(pub, sub, size) == if res.None? then Err(DeletionOutOfRange(0)) else Ok(Repair(res.value.0, res.value.1))
  {
    var plans := Plans(ParseAll(sub.iterations).value, sub.counters, size, 1);
    assert plans[0] == Ok(plan);
  }

  lemma ZerosOfThreeAndTwo()
    ensures ParseAll(seq(3, _ => "0")) == Some([0, 0, 0])
    ensures ParseAll(seq(2, _ => "0")) == Some([0, 0])
  {
    ParseZeros(3);
    ParseZeros(2);
    assert seq(3, _ => 0) == [0, 0, 0];
    assert seq(2, _ => 0) == [0, 0];
  }

  /** The subscriber counters 0, 2 of iteration 0 plan no deletion under an iteration size of 3. */
  lemma PlanOfZeroTwo()
    ensures IterationPlan([0, 0], [0, 2], 0, 3) == Ok(Plan(0, [0]))
  {
    assert FirstIndex([0, 0], 0) == Some(0);
    assert LastIndex([0, 0], 0) == Some(1);
    assert [0, 2][0..2] == [0, 2];
    assert Deltas([0, 2]) == [1];
    assert [1][0 := 0] == [0];
  }

  /** Under the default iteration size the same counters plan one gap of 3997 samples at the last delta. */
  lemma PlanOfZeroTwoAtDefaultSize()
    ensures IterationPlan([0, 0], [0, 2], 0, DefaultIterationSize) == Ok(Plan(0, [3997]))
  {
    assert FirstIndex([0, 0], 0) == Some(0);
    assert LastIndex([0, 0], 0) == Some(1);
    assert [0, 2][0..2] == [0, 2];
    assert Deltas([0, 2]) == [1];
    assert [1][0 := 3997] == [3997];
  }

  /**
   * The trailing correction overwrites an interior gap: with an iteration
   * size of 3, subscriber counters 0, 2 lose counter 1, yet the last delta
   * (the gap) is replaced by `3 - 2 - 1 = 0` and nothing is removed.
   */
  lemma TrailingCorrectionHidesLastGap()
    ensures SvDropRepair(IterationZero([0, 1, 2], [1000, 1010, 1020]), IterationZero([0, 2], [1005, 1028]), 3)
         == Ok(Repair(IterationZero([0, 1, 2], [1000, 1010, 1020]), 0))
  {
    var pub := IterationZero([0, 1, 2], [1000, 1010, 1020]);
    ZerosOfThreeAndTwo();
    OneIteration();
    PlanOfZeroTwo();
    RepairOfOnePlan(pub, IterationZero([0, 2], [1005, 1028]), 3, Plan(0, [0]));
    assert ApplyGaps(pub, 0, [0], 1) == Some((pub, 0));
  }

  /**
   * Under the default iteration size the same logs cannot be repaired:
   * the last delta becomes `4000 - 2 - 1 = 3997`, a gap of that size is
   * moved one position right, and its deletions run past the three
   * publisher samples.
   */
  lemma TrailingCorrectionOverrunsGroup()
    ensures SvDropRepair(IterationZero([0, 1, 2], [1000, 1010, 1020]), IterationZero([0, 2], [1005, 1028]), DefaultIterationSize)
         == Err(DeletionOutOfRange(0))
  {
    var pub := IterationZero([0, 1, 2], [1000, 1010, 1020]);
    ZerosOfThreeAndTwo();
    OneIteration();
    PlanOfZeroTwoAtDefaultSize();
    RepairOfOnePlan(pub, IterationZero([0, 2], [1005, 1028]), DefaultIterationSize, Plan(0, [3997]));
    assert Gap([3997], 0) == (2, 3997);
    DeleteRunFits(pub, 2, 3997);
    assert ApplyGaps(pub, 0, [3997], 1) == None;
  }

  lemma OneIterationOfFour()
    ensures IterationCount([0, 0, 0, 0]) == 1
  {
    assert [0, 0, 0, 0][1..] == [0, 0, 0] && [0, 0, 0][1..] == [0, 0] && [0, 0][1..] == [0];
    assert SortedDistinct([0], IntLess) == [0];
    assert SortedDistinct([0, 0], IntLess) == [0];
    assert SortedDistinct([0, 0, 0], IntLess) == [0];
    assert SortedDistinct([0, 0, 0, 0], IntLess) == [0];
  }

  /** The subscriber counters 0, 2, 3 of iteration 0 plan a gap at the first delta under an iteration size of 4. */
  lemma PlanOfZeroTwoThree()
    ensures IterationPlan([0, 0, 0], [0, 2, 3], 0, 4) == Ok(Plan(0, [1, 0]))
  {
    assert FirstIndex([0, 0, 0], 0) == Some(0);
    assert LastIndex([0, 0, 0], 0) == Some(2);
    assert [0, 2, 3][0..3] == [0, 2, 3];
    assert Deltas([0, 2, 3]) == [1, 0];
    assert [1, 0][1 := 0] == [1, 0];
  }

  /** That plan deletes the first two publisher samples. */
  lemma FirstTwoDeleted(pub: SvGroup)
    requires pub == IterationZero([0, 1, 2, 3], [1000, 1010, 1020, 1030])
    ensures ApplyGaps(pub, 0, [1, 0], 2) == Some((IterationZero([2, 3], [1020, 1030]), 2))
  {
    assert Gap([1, 0], 0) == (0, 2);
    var rest := IterationZero([2, 3], [1020, 1030]);
    var once := DeleteAt(pub, 0);
    assert once == IterationZero([1, 2, 3], [1010, 1020, 1030]);
    assert DeleteAt(once, 0) == rest;
    assert DeleteRun(pub, 0, 2) == Some(rest);
    assert ApplyGaps(pub, 0, [1, 0], 1) == Some((rest, 2));
  }

  /**
   * A gap at the first delta removes one sample more than it spans, from
   * the iteration's first slot: subscriber counters 0, 2, 3 (iteration
   * size 4) lose counter 1, yet publisher samples 0 and 1 are both removed
   * and two drops are counted.
   */
  lemma FirstDeltaGapRemovesOneMore()
    ensures SvDropRepair(IterationZero([0, 1, 2, 3], [1000, 1010, 1020, 1030]), IterationZero([0, 2, 3], [1005, 1028, 1037]), 4)
         == Ok(Repair(IterationZero([2, 3], [1020, 1030]), 2))
  {
    var pub := IterationZero([0, 1, 2, 3], [1000, 1010, 1020, 1030]);
    ParseZeros(4);
    ParseZeros(3);
    assert seq(4, _ => 0) == [0, 0, 0, 0];
    assert seq(3, _ => 0) == [0, 0, 0];
    OneIterationOfFour();
    PlanOfZeroTwoThree();
    RepairOfOnePlan(pub, IterationZero([0, 2, 3], [1005, 1028, 1037]), 4, Plan(0, [1, 0]));
    FirstTwoDeleted(pub);
  }

  /**
   * The outcome of the gap repairs of one iteration computed from the
   * group's length alone: `None` when a deletion runs past the end, or the
   * number of samples removed.
   */
  ghost function GapsOutcome(len: int, start: nat, d: seq<int>, j: nat): Option<nat>
    requires j <= |d|
    decreases j
  {
    if j == 0 then Some(0)
    else
      var prev := GapsOutcome(len, start, d, j - 1);
      if prev.None? || d[j - 1] <= 0 then prev
      else
        var gap := Gap(d, j - 1);
        if start + gap.0 + gap.1 <= len - prev.value then Some(prev.value + gap.1) else None
  }

  /** How many samples a run of gap repairs removed, or `None` when one of them failed. */
  function Removed(o: Option<(SvGroup, nat)>): Option<nat>
  {
    match o
    case None => None
    case Some((_, n)) => Some(n)
  }

  /** One gap repair succeeds exactly when the run it deletes fits in the group. */
  lemma GapFits(h: SvGroup, start: nat, d: seq<int>, disc: nat)
    requires WellFormed(h) && disc < |d| && d[disc] > 0
    ensures DeleteRun(h, start + Gap(d, disc).0, Gap(d, disc).1).Some? <==>
      start + Gap(d, disc).0 + Gap(d, disc).1 <= |h.counters|
  {
    GapCountPositive(d, disc);
    DeleteRunFits(h, start + Gap(d, disc).0, Gap(d, disc).1);
  }

  /** The gap repairs succeed, and remove as many samples, as their length-only outcome says. */
  lemma {:induction false} ApplyGapsOutcome(g: SvGroup, start: nat, d: seq<int>, j: nat)
    requires WellFormed(g) && j <= |d|
    ensures Removed(ApplyGaps(g, start, d, j)) == GapsOutcome(|g.counters|, start, d, j)
    decreases j
  {
    if j > 0 {
      ApplyGapsOutcome(g, start, d, j - 1);
      var p := ApplyGaps(g, start, d, j - 1);
      if p.Some? && d[j - 1] > 0 {
        GapFits(p.value.0, start, d, j - 1);
      }
    }
  }

  /** The gap repairs of two groups of the same length succeed alike and remove as many samples. */
  lemma ApplyGapsDependsOnLength(g1: SvGroup, g2: SvGroup, start: nat, d: seq<int>, j: nat)
    requires WellFormed(g1) && WellFormed(g2) && |g1.counters| == |g2.counters| && j <= |d|
    ensures ApplyGaps(g1, start, d, j).Some? == ApplyGaps(g2, start, d, j).Some?
    ensures ApplyGaps(g1, start, d, j).Some? ==> ApplyGaps(g1, start, d, j).value.1 == ApplyGaps(g2, start, d, j).value.1
  {
    ApplyGapsOutcome(g1, start, d, j);
    ApplyGapsOutcome(g2, start, d, j);
  }

  /** The same holds of whole runs of passes. */
  lemma {:induction false} RepairUpToDependsOnLength(pub1: SvGroup, pub2: SvGroup, plans: seq<Result<Plan, DropError>>, k: nat)
    requires WellFormed(pub1) && WellFormed(pub2) && |pub1.counters| == |pub2.counters| && k <= |plans|
    ensures RepairUpTo(pub1, plans, k).Ok? == RepairUpTo(pub2, plans, k).Ok?
    ensures RepairUpTo(pub1, plans, k).Ok? ==> RepairUpTo(pub1, plans, k).value.1 == RepairUpTo(pub2, plans, k).value.1
    ensures RepairUpTo(pub1, plans, k).Err? ==> RepairUpTo(pub1, plans, k).error == RepairUpTo(pub2, plans, k).error
    decreases k
  {
    if k > 0 {
      RepairUpToDependsOnLength(pub1, pub2, plans, k - 1);
      var r1, r2 := RepairUpTo(pub1, plans, k - 1), RepairUpTo(pub2, plans, k - 1);
      if r1.Ok? && plans[k - 1].Ok? {
        var p := plans[k - 1].value;
        ApplyGapsDependsOnLength(r1.value.0, r2.value.0, p.start, p.deltas, |p.deltas|);
      }
    }
  }

  /**
   * Which samples are deleted is decided by the subscriber data alone: two
   * publisher groups with the same iteration column (whatever their
   * counters and timestamps) fail alike or lose the same number of samples.
   */
  lemma SvDropRepairIgnoresPublisherValues(pub1: SvGroup, pub2: SvGroup, sub: SvGroup, size: int)
    requires WellFormed(pub1) && WellFormed(pub2) && WellFormed(sub)
    requires pub1.iterations == pub2.iterations
    ensures SvDropRepair(pub1, sub, size).Ok? == SvDropRepair(pub2, sub, size).Ok?
    ensures SvDropRepair(pub1, sub, size).Ok? ==>
      SvDropRepair(pub1, sub, size).value.drops == SvDropRepair(pub2, sub, size).value.drops
    ensures SvDropRepair(pub1, sub, size).Err? ==>
      SvDropRepair(pub1, sub, size).error == SvDropRepair(pub2, sub, size).error
  {
    var p := ParseAll(pub1.iterations);
    var s := ParseAll(sub.iterations);
    if p.Some? && IterationCount(p.value) > 0 && s.Some? {
      var n := IterationCount(p.value);
      RepairUpToDependsOnLength(pub1, pub2, Plans(s.value, sub.counters, size, n), n);
    }
  }

  /** The delta array of one iteration, overwritten at its ends as the source does. */
  method CorrectDeltas(c: seq<int>, size: int) returns (r: Option<seq<int>>)
    requires |c| >= 1
    ensures r == Corrected(c, size)
  {
    var diffs := new int[|c| - 1](i requires 0 <= i < |c| - 1 => c[i + 1] - c[i] - 1);
    assert diffs[..] == Deltas(c);
    if size - c[|c| - 1] > 0 {
      if diffs.Length == 0 {
        return None;
      }
      diffs[diffs.Length - 1] := size - c[|c| - 1] - 1;
    }
    if c[0] > 0 {
      if diffs.Length == 0 {
        return None;
      }
      diffs[0] := c[0] - 1;
    }
    return Some(diffs[..]);
  }

  /** The innermost loop: `num_lost_values` deletions at one position. */
  method DeleteRepeatedly(g: SvGroup, idx: nat, count: nat) returns (r: Option<SvGroup>)
    requires WellFormed(g)
    ensures r == DeleteRun(g, idx, count)
  {
    var cur := g;
    for t := 0 to count
      invariant WellFormed(cur)
      invariant DeleteRun(g, idx, count) == DeleteRun(cur, idx, count - t)
    {
      if idx >= |cur.counters| {
        return None;
      }
      cur := DeleteAt(cur, idx);
    }
    return Some(cur);
  }

  /**
   * The body of the loop over the gaps, for the gap at delta `disc`: the
   * position is shifted as the source does, then the samples are deleted.
   */
  method RepairGap(g: SvGroup, start: nat, d: seq<int>, disc: nat) returns (r: Option<SvGroup>, lost: nat)
    requires WellFormed(g) && disc < |d| && d[disc] > 0
    ensures lost == Gap(d, disc).1
    ensures r == DeleteRun(g, start + Gap(d, disc).0, lost)
  {
    var at: int := disc;
    lost := d[disc];
    if lost == d[|d| - 1] {
      at := at + 1;
    }
    if at == 0 {
      at := -1;
      lost := lost + 1;
    }
    r := DeleteRepeatedly(g, start + at + 1, lost);
  }

  /** One turn of the loop over the gaps: delta `j`, deleted when positive. */
  method GapPass(g: SvGroup, start: nat, d: seq<int>, j: nat, cur: SvGroup, total: nat) returns (r: Option<(SvGroup, nat)>)
    requires WellFormed(g) && j < |d| && WellFormed(cur)
    requires ApplyGaps(g, start, d, j) == Some((cur, total))
    ensures r == ApplyGaps(g, start, d, j + 1)
  {
    ApplyGapsNext(g, start, d, j, cur, total);
    if d[j] <= 0 {
      return Some((cur, total));
    }
    var next, lost := RepairGap(cur, start, d, j);
    if next.None? {
      return None;
    }
    return Some((next.value, total + lost));
  }

  /** The loop over the gaps of one iteration (the deltas that are positive, in order). */
  method RepairGaps(g: SvGroup, start: nat, d: seq<int>) returns (r: Option<(SvGroup, nat)>)
    requires WellFormed(g)
    ensures r == ApplyGaps(g, start, d, |d|)
  {
    var cur: SvGroup, total: nat := g, 0;
    for j := 0 to |d|
      invariant WellFormed(cur)
      invariant ApplyGaps(g, start, d, j) == Some((cur, total))
    {
      var step := GapPass(g, start, d, j, cur, total);
      if step.None? {
        ApplyGapsStaysFailed(g, start, d, j + 1, |d|);
        return None;
      }
      cur, total := step.value.0, step.value.1;
    }
    return Some((cur, total));
  }

  /** The part of one pass that reads the subscriber data, written as the source does it. */
  method PlanIteration(its: seq<int>, cnt: seq<int>, k: nat, size: int) returns (r: Result<Plan, DropError>)
    requires |its| == |cnt|
    ensures r == IterationPlan(its, cnt, k, size)
  {
    var first := FirstIndex(its, k);
    var last := LastIndex(its, k);
    if first.None? || last.None? {
      return Err(MissingIteration(k));
    }
    FirstIndexIsFirst(its, k);
    var c := cnt[first.value..last.value + 1];
    if HasNegative(Deltas(c)) {
      return Err(Disordered(k));
    }
    var d := CorrectDeltas(c, size);
    if d.None? {
      return Err(SingleSample(k));
    }
    return Ok(Plan(first.value, d.value));
  }

  /** The part of one pass that deletes publisher samples. */
  method RepairOne(g: SvGroup, k: nat, plan: Result<Plan, DropError>) returns (r: Result<(SvGroup, nat), DropError>)
    requires WellFormed(g)
    ensures r == RepairIteration(g, k, plan)
  {
    if plan.Err? {
      return Err(plan.error);
    }
    var repaired := RepairGaps(g, plan.value.start, plan.value.deltas);
    if repaired.None? {
      return Err(DeletionOutOfRange(k));
    }
    return Ok(repaired.value);
  }

  /** The deletions of one pass of the outer loop of `detect_sv_drop`, for iteration `k`. */
  method RepairPass(pub: SvGroup, ghost plans: seq<Result<Plan, DropError>>, k: nat, plan: Result<Plan, DropError>,
                    cur: SvGroup, total: nat)
    returns (r: Result<(SvGroup, nat), DropError>)
    requires WellFormed(pub) && k < |plans| && plans[k] == plan
    requires WellFormed(cur) && RepairUpTo(pub, plans, k) == Ok((cur, total))
    ensures r == RepairUpTo(pub, plans, k + 1)
  {
    var step := RepairOne(cur, k, plan);
    if step.Err? {
      return Err(step.error);
    }
    return Ok((step.value.0, total + step.value.1));
  }

  /** The outer loop of `detect_sv_drop`, over iterations `0 .. n - 1`. */
  method RepairIterations(pub: SvGroup, its: seq<int>, cnt: seq<int>, size: int, n: nat)
    returns (r: Result<(SvGroup, nat), DropError>)
    requires WellFormed(pub) && |its| == |cnt|
    ensures r == RepairUpTo(pub, Plans(its, cnt, size, n), n)
  {
    ghost var plans := Plans(its, cnt, size, n);
    var cur: SvGroup, total: nat := pub, 0;
    for k := 0 to n
      invariant WellFormed(cur)
      invariant RepairUpTo(pub, plans, k) == Ok((cur, total))
    {
      var plan := PlanIteration(its, cnt, k, size);
      var step := RepairPass(pub, plans, k, plan, cur, total);
      if step.Err? {
        RepairUpToStaysFailed(pub, plans, k + 1, n);
        return Err(step.error);
      }
      cur, total := step.value.0, step.value.1;
    }
    return Ok((cur, total));
  }

  /**
   * `detect_sv_drop`: the new publisher group (the source reassigns the
   * three arrays in place) and the drop count, or the error that stops it.
   */
  method DetectSvDrop(pub: SvGroup, sub: SvGroup, iterationSize: int) returns (r: Result<Repair, DropError>)
    requires WellFormed(pub) && WellFormed(sub)
    ensures r == SvDropRepair(pub, sub, iterationSize)
  {
    var pubIts := ParseAll(pub.iterations);
    if pubIts.None? {
      return Err(BadIterationNumber);
    }
    var n := IterationCount(pubIts.value);
    if n == 0 {
      return Ok(Repair(pub, 0));
    }
    var subIts := ParseAll(sub.iterations);
    if subIts.None? {
      return Err(BadIterationNumber);
    }
    var repaired := RepairIterations(pub, subIts.value, sub.counters, iterationSize, n);
    if repaired.Err? {
      return Err(repaired.error);
    }
    return Ok(Repair(repaired.value.0, repaired.value.1));
  }

  // ---------------------------------------------------------------------
  // Comparing counters (`investigate_array_differences`)
  // ---------------------------------------------------------------------

  /** The tail of the longer array: its name, its positions beyond the shorter one, their values. */
  datatype Extra = Extra(array: string, indices: seq<nat>, values: seq<int>)

  /** The triples `(i, a1[i], a2[i])` for the positions `i < m` where the arrays differ, in ascending order. */
  function Mismatches(a1: seq<int>, a2: seq<int>, m: nat): seq<(nat, int, int)>
    requires m <= |a1| && m <= |a2|
  {
    if m == 0 then []
    else Mismatches(a1, a2, m - 1) + (if a1[m - 1] != a2[m - 1] then [(m - 1, a1[m - 1], a2[m - 1])] else [])
  }

  /** `np.arange(lo, hi)`. */
  function Range(lo: nat, hi: nat): (r: seq<nat>)
    requires lo <= hi
    ensures |r| == hi - lo && forall i :: 0 <= i < |r| ==> r[i] == lo + i
  {
    seq(hi - lo, i requires 0 <= i < hi - lo => (lo + i) as nat)
  }

  function Min(x: int, y: int): int { if x <= y then x else y }

  /** `investigate_array_differences(array1, array2)`. */
  function InvestigateArrayDifferences(a1: seq<int>, a2: seq<int>): (seq<(nat, int, int)>, Option<Extra>)
  {
    var m := Min(|a1|, |a2|);
    var extra :=
      if |a1| > |a2| then Some(Extra("array1", Range(|a2|, |a1|), a1[|a2|..]))
      else if |a2| > |a1| then Some(Extra("array2", Range(|a1|, |a2|), a2[|a1|..]))
      else None;
    (Mismatches(a1, a2, m), extra)
  }

  /** The list for `m` extends the list for `m - 1` by position `m - 1` when it differs. */
  lemma MismatchesPrefix(a1: seq<int>, a2: seq<int>, m: nat)
    requires 0 < m <= |a1| && m <= |a2|
    ensures var prev, ds := Mismatches(a1, a2, m - 1), Mismatches(a1, a2, m);
      && (forall t :: 0 <= t < |prev| ==> ds[t] == prev[t])
      && (a1[m - 1] != a2[m - 1] ==> |ds| == |prev| + 1 && ds[|prev|] == (m - 1, a1[m - 1], a2[m - 1]))
      && (a1[m - 1] == a2[m - 1] ==> ds == prev)
  {
  }

  /** Every entry of the mismatch list is a position below `m` where the arrays differ, with both values. */
  lemma {:induction false} MismatchesSound(a1: seq<int>, a2: seq<int>, m: nat)
    requires m <= |a1| && m <= |a2|
    ensures var ds := Mismatches(a1, a2, m);
      forall t :: 0 <= t < |ds| ==> ds[t].0 < m && ds[t].1 == a1[ds[t].0] && ds[t].2 == a2[ds[t].0] && ds[t].1 != ds[t].2
    decreases m
  {
    if m > 0 {
      MismatchesSound(a1, a2, m - 1);
      MismatchesPrefix(a1, a2, m);
    }
  }

  /** The mismatch list is in ascending order of position. */
  lemma {:induction false} MismatchesAscending(a1: seq<int>, a2: seq<int>, m: nat)
    requires m <= |a1| && m <= |a2|
    ensures var ds := Mismatches(a1, a2, m);
      forall t, u :: 0 <= t < u < |ds| ==> ds[t].0 < ds[u].0
    decreases m
  {
    if m > 0 {
      MismatchesAscending(a1, a2, m - 1);
      MismatchesSound(a1, a2, m - 1);
      MismatchesPrefix(a1, a2, m);
    }
  }

  /** Every position below `m` where the arrays differ is in the mismatch list. */
  lemma {:induction false} MismatchesComplete(a1: seq<int>, a2: seq<int>, m: nat)
    requires m <= |a1| && m <= |a2|
    ensures var ds := Mismatches(a1, a2, m);
      forall i :: 0 <= i < m && a1[i] != a2[i] ==> exists t :: 0 <= t < |ds| && ds[t].0 == i
    decreases m
  {
    if m > 0 {
      MismatchesComplete(a1, a2, m - 1);
      var prev := Mismatches(a1, a2, m - 1);
      var ds := Mismatches(a1, a2, m);
      MismatchesPrefix(a1, a2, m);
      forall i | 0 <= i < m && a1[i] != a2[i] ensures exists t :: 0 <= t < |ds| && ds[t].0 == i {
        if i == m - 1 {
          assert ds[|ds| - 1].0 == i;
        } else {
          var t :| 0 <= t < |prev| && prev[t].0 == i;
          assert ds[t] == prev[t];
        }
      }
    }
  }

  /** The two reports differ in no position where the arrays agree. */
  lemma InvestigateArrayDifferencesSpec(a1: seq<int>, a2: seq<int>)
    ensures var (ds, extra) := InvestigateArrayDifferences(a1, a2);
      && (ds == [] <==> a1[..Min(|a1|, |a2|)] == a2[..Min(|a1|, |a2|)])
      && (forall i :: 0 <= i < Min(|a1|, |a2|) ==> (a1[i] != a2[i] <==> exists t :: 0 <= t < |ds| && ds[t].0 == i))
      && (extra.None? <==> |a1| == |a2|)
      && (|a1| > |a2| ==> extra == Some(Extra("array1", extra.value.indices, a1[|a2|..])) && extra.value.indices == Range(|a2|, |a1|))
      && (|a2| > |a1| ==> extra == Some(Extra("array2", extra.value.indices, a2[|a1|..])) && extra.value.indices == Range(|a1|, |a2|))
  {
    var m := Min(|a1|, |a2|);
    MismatchesSound(a1, a2, m);
    MismatchesComplete(a1, a2, m);
    var ds := Mismatches(a1, a2, m);
    if ds == [] {
      assert forall i :: 0 <= i < m ==> a1[..m][i] == a1[i] && a2[..m][i] == a2[i];
    } else {
      assert a1[..m][ds[0].0] != a2[..m][ds[0].0];
    }
  }

  // ---------------------------------------------------------------------
  // Latencies (`compute_latency`)
  // ---------------------------------------------------------------------

  predicate AllWellFormed(gs: seq<SvGroup>)
  {
    forall j :: 0 <= j < |gs| ==> WellFormed(gs[j])
  }

  /**
   * numpy's `a - b` on one-dimensional integer arrays: arrays of equal
   * length subtract entrywise, an operand of length 1 is broadcast, and
   * any other pair of shapes raises ValueError (`None`).
   */
  function Subtract(a: seq<int>, b: seq<int>): (r: Option<seq<int>>)
    ensures r.Some? <==> |a| == |b| || |a| == 1 || |b| == 1
  {
    if |a| == |b| then Some(seq(|a|, i requires 0 <= i < |a| => a[i] - b[i]))
    else if |a| == 1 then Some(seq(|b|, i requires 0 <= i < |b| => a[0] - b[i]))
    else if |b| == 1 then Some(seq(|a|, i requires 0 <= i < |a| => a[i] - b[0]))
    else None
  }

  /** How `compute_latency` stops instead of returning. */
  datatype LatencyError =
    | NoStreams                             // no publisher stream: `stream_name` is unbound
    | MissingSubscriberStream(stream: nat)  // `sub_sv[stream]`: IndexError
    | Drop(stream: nat, error: DropError)   // `detect_sv_drop` stopped
    | ShapeMismatch(stream: nat)            // the timestamp arrays cannot be subtracted

  /** What one pass of `compute_latency` produces for its stream. */
  datatype StreamOutcome = StreamOutcome(pub: SvGroup, drops: Option<nat>, latency: seq<int>)

  /**
   * Stream `s`: the publisher group is repaired when its counter array is
   * not as long as the subscriber's, then the latencies are the subscriber
   * timestamps minus the publisher ones. `drops` is set iff a repair ran.
   */
  function StreamLatency(p: SvGroup, sub: seq<SvGroup>, s: nat): Result<StreamOutcome, LatencyError>
    requires WellFormed(p) && AllWellFormed(sub)
  {
    if s >= |sub| then Err(MissingSubscriberStream(s))
    else
      var q := sub[s];
      var repaired := if |p.counters| == |q.counters| then Ok(Repair(p, 0)) else SvDropRepair(p, q, DefaultIterationSize);
      if repaired.Err? then Err(Drop(s, repaired.error))
      else
        match Subtract(q.timestamps, repaired.value.pub.timestamps)
        case None => Err(ShapeMismatch(s))
        case Some(lat) =>
          Ok(StreamOutcome(repaired.value.pub, if |p.counters| == |q.counters| then None else Some(repaired.value.drops), lat))
  }

  /** The list of publisher groups, the latency lists and `sv_drop`, as the loop updates them. */
  datatype LatencyState = LatencyState(pub: seq<SvGroup>, latencies: seq<seq<int>>, svDrop: nat)

  /** What each stream's pass produces, computed from the original groups. */
  function Outcomes(pub: seq<SvGroup>, sub: seq<SvGroup>): (os: seq<Result<StreamOutcome, LatencyError>>)
    requires AllWellFormed(pub) && AllWellFormed(sub)
    ensures |os| == |pub|
  {
    seq(|pub|, s requires 0 <= s < |pub| => StreamLatency(pub[s], sub, s))
  }

  /**
   * The state after the passes for streams `0 .. k - 1`, pass `s`
   * producing `outcomes[s]`; the later slots still hold their first values.
   */
  function LatenciesUpTo(pub: seq<SvGroup>, outcomes: seq<Result<StreamOutcome, LatencyError>>, k: nat): (r: Result<LatencyState, LatencyError>)
    requires k <= |pub| == |outcomes|
    ensures r.Ok? ==> |r.value.pub| == |pub| && |r.value.latencies| == |pub|
    decreases k
  {
    if k == 0 then Ok(LatencyState(pub, seq(|pub|, _ => [0]), 0))
    else match LatenciesUpTo(pub, outcomes, k - 1)
      case Err(e) => Err(e)
      case Ok(st) =>
        match outcomes[k - 1]
        case Err(e) => Err(e)
        case Ok(o) =>
          Ok(LatencyState(st.pub[k - 1 := o.pub], st.latencies[k - 1 := o.latency],
                          if o.drops.Some? then o.drops.value else st.svDrop))
  }

  /** `compute_latency`'s result: the last stream index, the latencies, `sv_drop`, and the repaired publisher groups. */
  datatype LatencyResult = LatencyResult(lastStream: nat, latencies: seq<seq<int>>, svDrop: nat, pub: seq<SvGroup>)

  /** The result once every stream's pass has produced `outcomes`. */
  function LatencyFrom(pub: seq<SvGroup>, outcomes: seq<Result<StreamOutcome, LatencyError>>): Result<LatencyResult, LatencyError>
    requires |pub| == |outcomes|
  {
    if |pub| == 0 then Err(NoStreams)
    else match LatenciesUpTo(pub, outcomes, |pub|)
      case Err(e) => Err(e)
      case Ok(st) => Ok(LatencyResult(|pub| - 1, st.latencies, st.svDrop, st.pub))
  }

  /** What `compute_latency(pub_sv, sub_sv)` returns or how it stops. */
  function LatencyOf(pub: seq<SvGroup>, sub: seq<SvGroup>): Result<LatencyResult, LatencyError>
    requires AllWellFormed(pub) && AllWellFormed(sub)
  {
    LatencyFrom(pub, Outcomes(pub, sub))
  }

  /** `outcomes` lists what each stream's pass produces. */
  ghost predicate OutcomesOf(outcomes: seq<Result<StreamOutcome, LatencyError>>, pub: seq<SvGroup>, sub: seq<SvGroup>)
    requires AllWellFormed(pub) && AllWellFormed(sub)
  {
    |outcomes| == |pub| &&
    forall s {:trigger StreamLatency(pub[s], sub, s)} :: 0 <= s < |pub| ==> outcomes[s] == StreamLatency(pub[s], sub, s)
  }

  lemma OutcomesAreOutcomes(pub: seq<SvGroup>, sub: seq<SvGroup>) returns (outcomes: seq<Result<StreamOutcome, LatencyError>>)
    requires AllWellFormed(pub) && AllWellFormed(sub)
    ensures OutcomesOf(outcomes, pub, sub)
    ensures LatencyOf(pub, sub) == LatencyFrom(pub, outcomes)
  {
    outcomes := Outcomes(pub, sub);
  }

  /** Stream `k` extends the passes before it. */
  lemma LatenciesUpToNext(pub: seq<SvGroup>, outcomes: seq<Result<StreamOutcome, LatencyError>>, k: nat, st: LatencyState)
    requires k < |pub| == |outcomes|
    requires LatenciesUpTo(pub, outcomes, k) == Ok(st)
    ensures var o := outcomes[k];
      LatenciesUpTo(pub, outcomes, k + 1) ==
        if o.Err? then Err(o.error)
        else Ok(LatencyState(st.pub[k := o.value.pub], st.latencies[k := o.value.latency],
                             if o.value.drops.Some? then o.value.drops.value else st.svDrop))
  {
  }

  lemma {:induction false} LatenciesUpToStaysFailed(pub: seq<SvGroup>, outcomes: seq<Result<StreamOutcome, LatencyError>>, k: nat, m: nat)
    requires k <= m <= |pub| == |outcomes|
    requires LatenciesUpTo(pub, outcomes, k).Err?
    ensures LatenciesUpTo(pub, outcomes, m) == LatenciesUpTo(pub, outcomes, k)
    decreases m - k
  {
    if k < m {
      LatenciesUpToStaysFailed(pub, outcomes, k + 1, m);
    }
  }

  /** One pass of `compute_latency`'s loop. */
  method LatencyOfStream(p: SvGroup, sub: seq<SvGroup>, s: nat) returns (o: Result<StreamOutcome, LatencyError>)
    requires WellFormed(p) && AllWellFormed(sub)
    ensures o == StreamLatency(p, sub, s)
  {
    if s >= |sub| {
      return Err(MissingSubscriberStream(s));
    }
    var q := sub[s];
    var repaired: Result<Repair, DropError> := Ok(Repair(p, 0));
    if |p.counters| != |q.counters| {
      repaired := DetectSvDrop(p, q, DefaultIterationSize);
      if repaired.Err? {
        return Err(Drop(s, repaired.error));
      }
    }
    var lat := Subtract(q.timestamps, repaired.value.pub.timestamps);
    if lat.None? {
      return Err(ShapeMismatch(s));
    }
    return Ok(StreamOutcome(repaired.value.pub, if |p.counters| == |q.counters| then None else Some(repaired.value.drops), lat.value));
  }

  /** The passes for streams `0 .. k - 1` leave the later publisher groups as they were. */
  lemma {:induction false} LatenciesUpToLeavesLater(pub: seq<SvGroup>, outcomes: seq<Result<StreamOutcome, LatencyError>>, k: nat)
    requires k <= |pub| == |outcomes| && LatenciesUpTo(pub, outcomes, k).Ok?
    ensures forall j :: k <= j < |pub| ==> LatenciesUpTo(pub, outcomes, k).value.pub[j] == pub[j]
    decreases k
  {
    if k > 0 {
      LatenciesUpToLeavesLater(pub, outcomes, k - 1);
    }
  }

  /** After `k` successful passes, slot `j < k` holds what pass `j` produced. */
  lemma {:induction false} LatenciesUpToEntries(pub: seq<SvGroup>, outcomes: seq<Result<StreamOutcome, LatencyError>>, k: nat)
    requires k <= |pub| == |outcomes| && LatenciesUpTo(pub, outcomes, k).Ok?
    ensures var st := LatenciesUpTo(pub, outcomes, k).value;
      forall j :: 0 <= j < k ==>
        outcomes[j].Ok? && st.pub[j] == outcomes[j].value.pub && st.latencies[j] == outcomes[j].value.latency
    decreases k
  {
    if k > 0 {
      LatenciesUpToEntries(pub, outcomes, k - 1);
    }
  }

  /**
   * After `k` successful passes, `sv_drop` is the drop count of the last
   * pass that repaired its stream, or 0 when none did.
   */
  lemma {:induction false} LatenciesUpToDrop(pub: seq<SvGroup>, outcomes: seq<Result<StreamOutcome, LatencyError>>, k: nat)
    requires k <= |pub| == |outcomes| && LatenciesUpTo(pub, outcomes, k).Ok?
    ensures var st := LatenciesUpTo(pub, outcomes, k).value;
      && ((forall j :: 0 <= j < k ==> outcomes[j].Ok? && outcomes[j].value.drops.None?) ==> st.svDrop == 0)
      && (forall j :: (0 <= j < k && outcomes[j].Ok? && outcomes[j].value.drops.Some? &&
                        (forall i :: j < i < k ==> outcomes[i].Ok? && outcomes[i].value.drops.None?)) ==>
            st.svDrop == outcomes[j].value.drops.value)
    decreases k
  {
    if k > 0 {
      LatenciesUpToDrop(pub, outcomes, k - 1);
    }
  }

  /** A failed run of passes failed in one of them, all passes before it succeeding. */
  lemma {:induction false} LatenciesUpToErrorOrigin(pub: seq<SvGroup>, outcomes: seq<Result<StreamOutcome, LatencyError>>, k: nat)
    requires k <= |pub| == |outcomes| && LatenciesUpTo(pub, outcomes, k).Err?
    ensures exists s :: (0 <= s < k && outcomes[s] == Err(LatenciesUpTo(pub, outcomes, k).error) &&
      forall j :: 0 <= j < s ==> outcomes[j].Ok?)
    decreases k
  {
    if LatenciesUpTo(pub, outcomes, k - 1).Err? {
      LatenciesUpToErrorOrigin(pub, outcomes, k - 1);
    } else {
      LatenciesUpToEntries(pub, outcomes, k - 1);
    }
  }

  /** numpy's subtraction of two arrays of the same length is entrywise. */
  lemma SubtractEqualLengths(a: seq<int>, b: seq<int>)
    requires |a| == |b|
    ensures Subtract(a, b).Some? && |Subtract(a, b).value| == |a|
    ensures forall i :: 0 <= i < |a| ==> Subtract(a, b).value[i] == a[i] - b[i]
  {
  }

  /**
   * On success `compute_latency` returns the index of the last stream and
   * one latency list per publisher stream: the subscriber timestamps minus
   * those of the publisher group, repaired by `detect_sv_drop` exactly
   * when its counter array is not as long as the subscriber's, and left as
   * it was otherwise; the subscriber groups are only read.
   */
  lemma ComputeLatencyEntries(pub: seq<SvGroup>, sub: seq<SvGroup>)
    requires AllWellFormed(pub) && AllWellFormed(sub) && LatencyOf(pub, sub).Ok?
    ensures var res := LatencyOf(pub, sub).value;
      && |pub| >= 1 && res.lastStream == |pub| - 1 && |pub| <= |sub|
      && |res.latencies| == |res.pub| == |pub|
      && forall s :: 0 <= s < |pub| ==>
        && (|pub[s].counters| == |sub[s].counters| ==> res.pub[s] == pub[s])
        && (|pub[s].counters| != |sub[s].counters| ==>
              SvDropRepair(pub[s], sub[s], DefaultIterationSize).Ok? &&
              res.pub[s] == SvDropRepair(pub[s], sub[s], DefaultIterationSize).value.pub)
        && Subtract(sub[s].timestamps, res.pub[s].timestamps) == Some(res.latencies[s])
  {
    var outcomes := OutcomesAreOutcomes(pub, sub);
    LatenciesUpToEntries(pub, outcomes, |pub|);
    var res := LatencyOf(pub, sub).value;
    assert StreamLatency(pub[|pub| - 1], sub, |pub| - 1).Ok?;
    forall s | 0 <= s < |pub|
      ensures && (|pub[s].counters| == |sub[s].counters| ==> res.pub[s] == pub[s])
              && (|pub[s].counters| != |sub[s].counters| ==>
                    SvDropRepair(pub[s], sub[s], DefaultIterationSize).Ok? &&
                    res.pub[s] == SvDropRepair(pub[s], sub[s], DefaultIterationSize).value.pub)
              && Subtract(sub[s].timestamps, res.pub[s].timestamps) == Some(res.latencies[s])
    {
      assert StreamLatency(pub[s], sub, s).Ok?;
    }
  }

  /**
   * The `sv_drop` `compute_latency` returns is not a sum: it is the drop
   * count of the last stream that needed a repair, or 0 when none did.
   */
  lemma ComputeLatencyDropCount(pub: seq<SvGroup>, sub: seq<SvGroup>)
    requires AllWellFormed(pub) && AllWellFormed(sub) && LatencyOf(pub, sub).Ok?
    ensures |pub| <= |sub|
    ensures (forall j :: 0 <= j < |pub| ==> |pub[j].counters| == |sub[j].counters|) ==> LatencyOf(pub, sub).value.svDrop == 0
    ensures forall j :: (0 <= j < |pub| && |pub[j].counters| != |sub[j].counters| &&
                         (forall i :: j < i < |pub| ==> |pub[i].counters| == |sub[i].counters|)) ==>
        SvDropRepair(pub[j], sub[j], DefaultIterationSize).Ok? &&
        LatencyOf(pub, sub).value.svDrop == SvDropRepair(pub[j], sub[j], DefaultIterationSize).value.drops
  {
    var outcomes := OutcomesAreOutcomes(pub, sub);
    LatenciesUpToEntries(pub, outcomes, |pub|);
    LatenciesUpToDrop(pub, outcomes, |pub|);
    StreamLatencyDrops(pub[|pub| - 1], sub, |pub| - 1);
    forall j | 0 <= j < |pub|
      ensures j < |sub| && outcomes[j].Ok? && (outcomes[j].value.drops.Some? <==> |pub[j].counters| != |sub[j].counters|)
      ensures |pub[j].counters| != |sub[j].counters| ==>
        SvDropRepair(pub[j], sub[j], DefaultIterationSize).Ok? &&
        outcomes[j].value.drops == Some(SvDropRepair(pub[j], sub[j], DefaultIterationSize).value.drops)
    {
      StreamLatencyDrops(pub[j], sub, j);
    }
  }

  /** A pass that succeeds had its subscriber stream, and reports drops iff it repaired, with the repair's count. */
  lemma StreamLatencyDrops(p: SvGroup, sub: seq<SvGroup>, s: nat)
    requires WellFormed(p) && AllWellFormed(sub) && StreamLatency(p, sub, s).Ok?
    ensures s < |sub|
    ensures StreamLatency(p, sub, s).value.drops.Some? <==> |p.counters| != |sub[s].counters|
    ensures |p.counters| != |sub[s].counters| ==>
      SvDropRepair(p, sub[s], DefaultIterationSize).Ok? &&
      StreamLatency(p, sub, s).value.drops == Some(SvDropRepair(p, sub[s], DefaultIterationSize).value.drops)
  {
  }

  /**
   * `compute_latency` stops only for want of a stream, or at the first
   * stream whose pass stops: a missing subscriber stream, a stop of
   * `detect_sv_drop`, or timestamp arrays that cannot be subtracted.
   */
  lemma ComputeLatencyErrors(pub: seq<SvGroup>, sub: seq<SvGroup>)
    requires AllWellFormed(pub) && AllWellFormed(sub) && LatencyOf(pub, sub).Err?
    ensures LatencyOf(pub, sub).error == NoStreams <==> |pub| == 0
    ensures |pub| > 0 ==> exists s :: (0 <= s < |pub| && StreamLatency(pub[s], sub, s) == Err(LatencyOf(pub, sub).error) &&
      forall j :: 0 <= j < s ==> StreamLatency(pub[j], sub, j).Ok?)
  {
    var outcomes := OutcomesAreOutcomes(pub, sub);
    if |pub| > 0 {
      LatenciesUpToErrorOrigin(pub, outcomes, |pub|);
      var s :| 0 <= s < |pub| && outcomes[s] == Err(LatencyOf(pub, sub).error) && forall j :: 0 <= j < s ==> outcomes[j].Ok?;
      assert StreamLatency(pub[s], sub, s) == outcomes[s];
      assert forall j :: 0 <= j < s ==> StreamLatency(pub[j], sub, j) == outcomes[j];
    }
  }

  /**
   * One pass of `compute_latency`'s loop on the current publisher list,
   * latency list and `sv_drop`.
   */
  method LatencyPass(pub: seq<SvGroup>, sub: seq<SvGroup>, ghost outcomes: seq<Result<StreamOutcome, LatencyError>>,
                     stream: nat, pubSv: seq<SvGroup>, latencies: seq<seq<int>>, svDrop: nat)
    returns (r: Result<LatencyState, LatencyError>)
    requires AllWellFormed(pub) && AllWellFormed(sub) && OutcomesOf(outcomes, pub, sub) && stream < |pub|
    requires |pubSv| == |pub| && pubSv[stream] == pub[stream]
    requires LatenciesUpTo(pub, outcomes, stream) == Ok(LatencyState(pubSv, latencies, svDrop))
    ensures r == LatenciesUpTo(pub, outcomes, stream + 1)
  {
    LatenciesUpToNext(pub, outcomes, stream, LatencyState(pubSv, latencies, svDrop));
    var o := LatencyOfStream(pubSv[stream], sub, stream);
    assert o == outcomes[stream];
    if o.Err? {
      return Err(o.error);
    }
    var drop := svDrop;
    if o.value.drops.Some? {
      drop := o.value.drops.value;
    }
    return Ok(LatencyState(pubSv[stream := o.value.pub], latencies[stream := o.value.latency], drop));
  }

  /**
   * `compute_latency`: fills `latencies` and the publisher list slot by
   * slot, stream by stream.
   */
  method ComputeLatency(pub: seq<SvGroup>, sub: seq<SvGroup>) returns (r: Result<LatencyResult, LatencyError>)
    requires AllWellFormed(pub) && AllWellFormed(sub)
    ensures r == LatencyOf(pub, sub)
  {
    ghost var outcomes := OutcomesAreOutcomes(pub, sub);
    r := LatencyLoop(pub, sub, outcomes);
  }

  /** The loop of `compute_latency`, pass `s` producing `outcomes[s]`. */
  method LatencyLoop(pub: seq<SvGroup>, sub: seq<SvGroup>, ghost outcomes: seq<Result<StreamOutcome, LatencyError>>)
    returns (r: Result<LatencyResult, LatencyError>)
    requires AllWellFormed(pub) && AllWellFormed(sub) && OutcomesOf(outcomes, pub, sub)
    ensures r == LatencyFrom(pub, outcomes)
  {
    var pubSv := pub;
    var latencies: seq<seq<int>> := seq(|pub|, _ => [0]);
    var svDrop: nat := 0;
    for stream := 0 to |pub|
      invariant |pubSv| == |pub|
      invariant forall j :: stream <= j < |pub| ==> pubSv[j] == pub[j]
      invariant LatenciesUpTo(pub, outcomes, stream) == Ok(LatencyState(pubSv, latencies, svDrop))
    {
      var step := LatencyPass(pub, sub, outcomes, stream, pubSv, latencies, svDrop);
      if step.Err? {
        LatenciesUpToStaysFailed(pub, outcomes, stream + 1, |pub|);
        return Err(step.error);
      }
      LatenciesUpToLeavesLater(pub, outcomes, stream + 1);
      pubSv, latencies, svDrop := step.value.pub, step.value.latencies, step.value.svDrop;
    }
    if |pub| == 0 {
      return Err(NoStreams);
    }
    return Ok(LatencyResult(|pub| - 1, latencies, svDrop, pubSv));
  }

  // ---------------------------------------------------------------------
  // Statistics and the verdict (`compute_min`, `compute_max`,
  // `compute_neglat`, `generate_adoc`)
  // ---------------------------------------------------------------------

  /** `compute_min`: `None` on an empty array, its least value otherwise. */
  function ComputeMin(values: seq<int>): (r: Option<int>)
    ensures r.None? <==> |values| == 0
    ensures r.Some? ==> r.value in values && forall i :: 0 <= i < |values| ==> r.value <= values[i]
    decreases |values|
  {
    if |values| == 0 then None
    else match ComputeMin(values[1..])
      case None => Some(values[0])
      case Some(m) =>
        assert forall i :: 1 <= i < |values| ==> values[i] == values[1..][i - 1];
        Some(if values[0] <= m then values[0] else m)
  }

  /** `compute_max`: `None` on an empty array, its greatest value otherwise. */
  function ComputeMax(values: seq<int>): (r: Option<int>)
    ensures r.None? <==> |values| == 0
    ensures r.Some? ==> r.value in values && forall i :: 0 <= i < |values| ==> values[i] <= r.value
    decreases |values|
  {
    if |values| == 0 then None
    else match ComputeMax(values[1..])
      case None => Some(values[0])
      case Some(m) =>
        assert forall i :: 1 <= i < |values| ==> values[i] == values[1..][i - 1];
        Some(if values[0] >= m then values[0] else m)
  }

  /** `compute_neglat`: the number of strictly negative values. */
  function ComputeNegLat(values: seq<int>): (r: nat)
    ensures r <= |values|
    ensures r == 0 <==> forall i :: 0 <= i < |values| ==> values[i] >= 0
    decreases |values|
  {
    if |values| == 0 then 0
    else
      assert forall i :: 1 <= i < |values| ==> values[i] == values[1..][i - 1];
      (if values[0] < 0 then 1 else 0) + ComputeNegLat(values[1..])
  }

  /** Counting negatives is additive over concatenation. */
  lemma {:induction false} ComputeNegLatAppend(a: seq<int>, b: seq<int>)
    ensures ComputeNegLat(a + b) == ComputeNegLat(a) + ComputeNegLat(b)
    decreases |a|
  {
    if |a| > 0 {
      assert (a + b)[1..] == a[1..] + b;
      ComputeNegLatAppend(a[1..], b);
    } else {
      assert a + b == b;
    }
  }

  /** Every value negative: the count is the length. */
  lemma {:induction false} ComputeNegLatAllNegative(values: seq<int>)
    requires forall i :: 0 <= i < |values| ==> values[i] < 0
    ensures ComputeNegLat(values) == |values|
    decreases |values|
  {
    if |values| > 0 {
      assert forall i :: 0 <= i < |values| - 1 ==> values[1..][i] == values[i + 1];
      ComputeNegLatAllNegative(values[1..]);
    }
  }

  /** The result cell of the report: the text and its background colour. */
  datatype Verdict = Verdict(result: string, color: string)

  /** How `generate_adoc` stops before writing a verdict. */
  datatype ReportError =
    | BadSubscriberPath           // the file name has no `_`: IndexError
    | UnreadableLog               // `extract_sv` raised
    | LatencyFailed(error: LatencyError)
    | NoMaximum                   // `None < ttot`: TypeError

  /** `maxlat < ttot` decides between PASS in green and FAILED in red. */
  function ThresholdVerdict(maxlat: Option<int>, ttot: int): Result<Verdict, ReportError>
  {
    match maxlat
    case None => Err(NoMaximum)
    case Some(m) => if m < ttot then Ok(Verdict("PASS", GreenColor)) else Ok(Verdict("FAILED", RedColor))
  }

  /**
   * A latency list passes iff it is not empty and every latency is
   * strictly below the threshold; one latency equal to the threshold fails.
   */
  lemma VerdictOfLatencies(lat: seq<int>, ttot: int)
    ensures ThresholdVerdict(ComputeMax(lat), ttot) == Err(NoMaximum) <==> |lat| == 0
    ensures ThresholdVerdict(ComputeMax(lat), ttot) == Ok(Verdict("PASS", GreenColor)) <==>
      |lat| > 0 && forall i :: 0 <= i < |lat| ==> lat[i] < ttot
    ensures ThresholdVerdict(ComputeMax(lat), ttot) == Ok(Verdict("FAILED", RedColor)) <==>
      exists i :: 0 <= i < |lat| && lat[i] >= ttot
  {
    if |lat| > 0 {
      var m := ComputeMax(lat).value;
      var k :| 0 <= k < |lat| && lat[k] == m;
    }
  }

  /** The VM name of the report, `sub.split('/')[-1].split('_')[1].split('.')[0]`. */
  function VmName(path: string): Option<string>
  {
    var parts := Split(path, '/');
    var words := Split(parts[|parts| - 1], '_');
    if |words| < 2 then None else Some(Split(words[1], '.')[0])
  }

  /** The VM name of `dir/<prefix>_<vm>.<ext>` is `<vm>`. */
  lemma VmNameOfPath(dir: string, prefix: string, vm: string, ext: string)
    requires '/' !in prefix && '/' !in vm && '/' !in ext
    requires '_' !in prefix && '_' !in vm && '_' !in ext && '.' !in vm
    ensures VmName(dir + "/" + prefix + "_" + vm + "." + ext) == Some(vm)
  {
    var file := prefix + "_" + vm + "." + ext;
    assert dir + "/" + prefix + "_" + vm + "." + ext == dir + ['/'] + file;
    SplitLast(dir, '/', file);
    assert file == prefix + ['_'] + (vm + ['.'] + ext);
    SplitTwo(prefix, vm + ['.'] + ext, '_');
    SplitAtFirst(vm, '.', ext);
  }

  /** What `generate_adoc` computes before writing: the VM name, the stream-0 extremes and the verdict. */
  datatype LatencyReportData = LatencyReportData(vm: string, minLat: Option<int>, maxLat: Option<int>, verdict: Verdict)

  /** `generate_adoc` on the two logs' lines, the subscriber file's path and the threshold. */
  function ReportOf(pubLines: seq<string>, subLines: seq<string>, subPath: string, ttot: int): Result<LatencyReportData, ReportError>
  {
    match VmName(subPath)
    case None => Err(BadSubscriberPath)
    case Some(vm) =>
      var pubSv, subSv := SvGroupsOf(pubLines), SvGroupsOf(subLines);
      if pubSv.None? || subSv.None? then Err(UnreadableLog)
      else
        SvGroupsWellFormed(pubLines);
        SvGroupsWellFormed(subLines);
        match LatencyOf(pubSv.value, subSv.value)
        case Err(e) => Err(LatencyFailed(e))
        case Ok(res) =>
          ComputeLatencyEntries(pubSv.value, subSv.value);
          var lat := res.latencies[0];
          match ThresholdVerdict(ComputeMax(lat), ttot)
          case Err(e) => Err(e)
          case Ok(v) => Ok(LatencyReportData(vm, ComputeMin(lat), ComputeMax(lat), v))
  }

  /**
   * The report passes iff every latency of the first stream is below the
   * threshold, the first stream having at least one latency.
   */
  lemma ReportPasses(pubLines: seq<string>, subLines: seq<string>, subPath: string, ttot: int)
    requires ReportOf(pubLines, subLines, subPath, ttot).Ok?
    ensures SvGroupsOf(pubLines).Some? && SvGroupsOf(subLines).Some?
    ensures var pub, sub := SvGroupsOf(pubLines).value, SvGroupsOf(subLines).value;
      AllWellFormed(pub) && AllWellFormed(sub) && LatencyOf(pub, sub).Ok? &&
      var lat := LatencyOf(pub, sub).value.latencies[0];
      && |lat| > 0
      && (ReportOf(pubLines, subLines, subPath, ttot).value.verdict == Verdict("PASS", GreenColor) <==>
            forall i :: 0 <= i < |lat| ==> lat[i] < ttot)
  {
    var pub, sub := SvGroupsOf(pubLines).value, SvGroupsOf(subLines).value;
    SvGroupsWellFormed(pubLines);
    SvGroupsWellFormed(subLines);
    ComputeLatencyEntries(pub, sub);
    VerdictOfLatencies(LatencyOf(pub, sub).value.latencies[0], ttot);
  }

  /** `generate_adoc`'s computation, in the order the source performs it. */
  method GenerateReport(pubLines: seq<string>, subLines: seq<string>, subPath: string, ttot: int)
    returns (r: Result<LatencyReportData, ReportError>)
    ensures r == ReportOf(pubLines, subLines, subPath, ttot)
  {
    var vm := VmName(subPath);
    if vm.None? {
      return Err(BadSubscriberPath);
    }
    var pubSv := ExtractSv(pubLines);
    var subSv := ExtractSv(subLines);
    if pubSv.None? || subSv.None? {
      return Err(UnreadableLog);
    }
    SvGroupsWellFormed(pubLines);
    SvGroupsWellFormed(subLines);
    var res := ComputeLatency(pubSv.value, subSv.value);
    if res.Err? {
      return Err(LatencyFailed(res.error));
    }
    ComputeLatencyEntries(pubSv.value, subSv.value);
    var lat := res.value.latencies[0];
    var maxLat := ComputeMax(lat);
    var verdict := ThresholdVerdict(maxLat, ttot);
    if verdict.Err? {
      return Err(verdict.error);
    }
    return Ok(LatencyReportData(vm.value, ComputeMin(lat), maxLat, verdict.value));
  }
}
