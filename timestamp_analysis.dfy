/**
 * The matching step of the timestamp analysis: publisher lines give each
 * packet id its hardware timestamp (the first line for an id wins, the
 * later ones are recorded as duplicates), the intervals between
 * consecutive publications are taken in microseconds, and subscriber
 * lines are matched by id into latencies or into the list of ids that
 * were never published.
 */
module TimestampAnalysis {
  import opened Wrappers
  import opened Text
  import opened PostProcessing

  /** `skip_first_n`: the number of leading entries dropped from every list. */
  const SkipFirstN: nat := 0

  // ---------------------------------------------------------------------
  // Reading the files
  // ---------------------------------------------------------------------

  /** The packet id of a line and its first timestamp, `fields[0]` and `fields[1]`. */
  datatype Stamp = Stamp(id: string, ts: int)

  datatype FileKind = Publisher | Subscriber

  /** How reading a file stops. */
  datatype ReadError =
    | Unreadable(file: FileKind, line: nat)   // a field is not an integer: ValueError
    | NoTimestamp(file: FileKind, line: nat)  // `fields[1]` on a line without a timestamp: IndexError

  /** `fields[0]` and `fields[1]` of line `n` of a file. */
  function StampOf(line: string, file: FileKind, n: nat): (r: Result<Stamp, ReadError>)
  {
    match ParseResultLine(line)
    case None => Err(Unreadable(file, n))
    case Some(rec) => if |rec.values| == 0 then Err(NoTimestamp(file, n)) else Ok(Stamp(rec.id, rec.values[0]))
  }

  /** What reading each line of a file gives. */
  function LineStamps(lines: seq<string>, file: FileKind): (rs: seq<Result<Stamp, ReadError>>)
    ensures |rs| == |lines|
  {
    seq(|lines|, j requires 0 <= j < |lines| => StampOf(lines[j], file, j))
  }

  /** The stamps of the first `k` lines, or the error of the first line that fails. */
  function StampsUpTo(rs: seq<Result<Stamp, ReadError>>, k: nat): (r: Result<seq<Stamp>, ReadError>)
    requires k <= |rs|
    ensures r.Ok? ==> |r.value| == k
    decreases k
  {
    if k == 0 then Ok([])
    else match StampsUpTo(rs, k - 1)
      case Err(e) => Err(e)
      case Ok(prefix) =>
        match rs[k - 1]
        case Err(e) => Err(e)
        case Ok(s) => Ok(prefix + [s])
  }

  /** `results_reader` over a whole file: the first two fields of each line, or the first failure. */
  function ReadFile(lines: seq<string>, file: FileKind): Result<seq<Stamp>, ReadError>
  {
    StampsUpTo(LineStamps(lines, file), |lines|)
  }

  /** Every line is read, stamp `j` coming from line `j`, or the first line that fails stops the reading. */
  lemma {:induction false} StampsUpToEntries(rs: seq<Result<Stamp, ReadError>>, k: nat)
    requires k <= |rs|
    ensures StampsUpTo(rs, k).Ok? <==> forall j :: 0 <= j < k ==> rs[j].Ok?
    ensures StampsUpTo(rs, k).Ok? ==> forall j :: 0 <= j < k ==> StampsUpTo(rs, k).value[j] == rs[j].value
    ensures StampsUpTo(rs, k).Err? ==>
      exists j :: (0 <= j < k && rs[j] == Err(StampsUpTo(rs, k).error) && forall i :: 0 <= i < j ==> rs[i].Ok?)
    decreases k
  {
    if k > 0 {
      StampsUpToEntries(rs, k - 1);
    }
  }

  lemma {:induction false} StampsUpToStaysFailed(rs: seq<Result<Stamp, ReadError>>, k: nat, m: nat)
    requires k <= m <= |rs| && StampsUpTo(rs, k).Err?
    ensures StampsUpTo(rs, m) == StampsUpTo(rs, k)
    decreases m - k
  {
    if k < m {
      StampsUpToStaysFailed(rs, k + 1, m);
    }
  }

  /** Reading a file line by line. */
  method ReadStamps(lines: seq<string>, file: FileKind) returns (r: Result<seq<Stamp>, ReadError>)
    ensures r == ReadFile(lines, file)
  {
    ghost var rs := LineStamps(lines, file);
    var stamps: seq<Stamp> := [];
    for i := 0 to |lines|
      invariant StampsUpTo(rs, i) == Ok(stamps)
    {
      var s := StampOf(lines[i], file, i);
      if s.Err? {
        StampsUpToStaysFailed(rs, i + 1, |lines|);
        return Err(s.error);
      }
      stamps := stamps + [s.value];
    }
    return Ok(stamps);
  }

  // ---------------------------------------------------------------------
  // Rounding
  // ---------------------------------------------------------------------

  /**
   * Python's `round(n / d)` computed exactly: the integer nearest to
   * `n / d`, a tie going to the even neighbour.
   */
  function RoundHalfEven(n: int, d: int): int
    requires d > 0
  {
    var q := n / d;
    var rem := n % d;
    if 2 * rem < d then q
    else if 2 * rem > d then q + 1
    else if q % 2 == 0 then q
    else q + 1
  }

  /** The result is within half a unit of `n / d`, and a tie is resolved to an even result. */
  lemma RoundHalfEvenNearest(n: int, d: int)
    requires d > 0
    ensures var r := RoundHalfEven(n, d);
      && -d <= 2 * (n - d * r) <= d
      && ((2 * (n - d * r) == d || 2 * (n - d * r) == -d) ==> r % 2 == 0)
  {
    var q := n / d;
    var rem := n % d;
    assert n == d * q + rem;
    assert n - d * (q + 1) == rem - d;
  }

  // ---------------------------------------------------------------------
  // The publisher loop
  // ---------------------------------------------------------------------

  /**
   * What the publisher loop keeps: `pub_data`, `key_doublon`,
   * `interval_between_pub_us` and `prev`.
   */
  datatype PubState = PubState(pubData: map<string, int>, doublons: seq<string>, intervals: seq<int>, prev: Option<int>)

  /** The state after the first `k` publisher lines. */
  function PubUpTo(stamps: seq<Stamp>, k: nat): (st: PubState)
    requires k <= |stamps|
    decreases k
  {
    if k == 0 then PubState(map[], [], [], None)
    else
      var st := PubUpTo(stamps, k - 1);
      var s := stamps[k - 1];
      var repeated := s.id in st.pubData;
      PubState(if repeated then st.pubData else st.pubData[s.id := s.ts],
               if repeated then st.doublons + [s.id] else st.doublons,
               if Truthy(st.prev) then st.intervals + [RoundHalfEven(s.ts - st.prev.value, 1000)] else st.intervals,
               Some(s.ts))
  }

  /** `0 <= j < k` is the first position of `id` among the first `k` stamps. */
  predicate FirstAt(stamps: seq<Stamp>, id: string, j: nat)
    requires j < |stamps|
  {
    stamps[j].id == id && forall i :: 0 <= i < j ==> stamps[i].id != id
  }

  /**
   * First wins: an id is in `pub_data` iff some line carries it, and its
   * timestamp is the one of its first line.
   */
  lemma {:induction false} PubDataKeys(stamps: seq<Stamp>, k: nat)
    requires k <= |stamps|
    ensures forall id :: id in PubUpTo(stamps, k).pubData <==> exists j :: 0 <= j < k && stamps[j].id == id
    decreases k
  {
    if k > 0 {
      PubDataKeys(stamps, k - 1);
    }
  }

  /** The timestamp kept for an id is the one of its first line. */
  lemma {:induction false} PubDataFirstWins(stamps: seq<Stamp>, k: nat)
    requires k <= |stamps|
    ensures forall j :: 0 <= j < k && FirstAt(stamps, stamps[j].id, j) ==>
      stamps[j].id in PubUpTo(stamps, k).pubData && PubUpTo(stamps, k).pubData[stamps[j].id] == stamps[j].ts
    decreases k
  {
    if k > 0 {
      PubDataFirstWins(stamps, k - 1);
      PubDataKeys(stamps, k - 1);
      var before := PubUpTo(stamps, k - 1).pubData;
      var s := stamps[k - 1];
      assert PubUpTo(stamps, k).pubData == if s.id in before then before else before[s.id := s.ts];
    }
  }

  /** `p` lists, in increasing order, positions below `k`. */
  ghost predicate LinePositions(p: seq<nat>, k: nat)
  {
    && (forall a, b :: 0 <= a < b < |p| ==> p[a] < p[b])
    && (forall m :: 0 <= m < |p| ==> p[m] < k)
  }

  /** Line `j` repeats the id of an earlier line. */
  ghost predicate Repeats(stamps: seq<Stamp>, j: nat)
    requires j < |stamps|
  {
    exists i :: 0 <= i < j && stamps[i].id == stamps[j].id
  }

  /**
   * `p` picks, in file order, exactly the lines among the first `k` that
   * repeat an earlier id, and `doublons` holds their ids.
   */
  ghost predicate DoublonLines(stamps: seq<Stamp>, k: nat, doublons: seq<string>, p: seq<nat>)
    requires k <= |stamps|
  {
    && |p| == |doublons|
    && LinePositions(p, k)
    && (forall j :: 0 <= j < k ==> (j in p <==> Repeats(stamps, j)))
    && (forall m :: 0 <= m < |p| ==> doublons[m] == stamps[p[m]].id)
  }

  /**
   * Every line either introduces an id or is recorded as a duplicate:
   * `key_doublon` holds, in file order, the id of every line that repeats
   * an earlier id, so an id is listed iff it occurs on two lines.
   */
  lemma {:induction false} DoublonsCount(stamps: seq<Stamp>, k: nat)
    requires k <= |stamps|
    ensures var st := PubUpTo(stamps, k);
      |st.doublons| + |st.pubData| == k
    ensures var st := PubUpTo(stamps, k);
      forall m :: 0 <= m < |st.doublons| ==> st.doublons[m] in st.pubData
    ensures exists p :: DoublonLines(stamps, k, PubUpTo(stamps, k).doublons, p)
    ensures forall id :: id in PubUpTo(stamps, k).doublons <==>
      exists i, j :: 0 <= i < j < k && stamps[i].id == id && stamps[j].id == id
  {
    DoublonsSizes(stamps, k);
    DoublonsInFileOrder(stamps, k);
    var d := PubUpTo(stamps, k).doublons;
    var p: seq<nat> :| DoublonLines(stamps, k, d, p);
    forall id
      ensures id in d <==> exists i, j :: 0 <= i < j < k && stamps[i].id == id && stamps[j].id == id
    {
      if id in d {
        var m :| 0 <= m < |d| && d[m] == id;
        assert p[m] in p;
        assert Repeats(stamps, p[m]);
      }
      if exists i, j :: 0 <= i < j < k && stamps[i].id == id && stamps[j].id == id {
        var i, j :| 0 <= i < j < k && stamps[i].id == id && stamps[j].id == id;
        assert Repeats(stamps, j);
        var m :| 0 <= m < |p| && p[m] == j;
        assert d[m] == id;
      }
    }
  }

  /** A line adds an id or a duplicate, and every duplicate is a published id. */
  lemma {:induction false} DoublonsSizes(stamps: seq<Stamp>, k: nat)
    requires k <= |stamps|
    ensures var st := PubUpTo(stamps, k);
      |st.doublons| + |st.pubData| == k
    ensures var st := PubUpTo(stamps, k);
      forall m :: 0 <= m < |st.doublons| ==> st.doublons[m] in st.pubData
    decreases k
  {
    if k > 0 {
      DoublonsSizes(stamps, k - 1);
      var st := PubUpTo(stamps, k - 1);
      var s := stamps[k - 1];
      if s.id !in st.pubData {
        assert |st.pubData[s.id := s.ts]| == |st.pubData| + 1 by {
          assert st.pubData[s.id := s.ts].Keys == st.pubData.Keys + {s.id};
        }
      }
    }
  }

  /** The duplicates are the ids of the lines `DoublonLines` picks. */
  lemma {:induction false} DoublonsInFileOrder(stamps: seq<Stamp>, k: nat)
    requires k <= |stamps|
    ensures exists p :: DoublonLines(stamps, k, PubUpTo(stamps, k).doublons, p)
    decreases k
  {
    if k == 0 {
      var none: seq<nat> := [];
      assert DoublonLines(stamps, 0, PubUpTo(stamps, 0).doublons, none);
    } else {
      var st := PubUpTo(stamps, k - 1);
      var repeated := stamps[k - 1].id in st.pubData;
      var d := PubUpTo(stamps, k).doublons;
      assert d == if repeated then st.doublons + [stamps[k - 1].id] else st.doublons;
      assert repeated <==> Repeats(stamps, k - 1) by {
        PubDataKeys(stamps, k - 1);
      }
      DoublonsInFileOrder(stamps, k - 1);
      var q: seq<nat> :| DoublonLines(stamps, k - 1, st.doublons, q);
      if repeated {
        DoublonLinesAdd(stamps, k, st.doublons, q);
      } else {
        DoublonLinesSkip(stamps, k, st.doublons, q);
      }
    }
  }

  /** A publisher line that repeats an id joins the picked positions. */
  lemma DoublonLinesAdd(stamps: seq<Stamp>, k: nat, prev: seq<string>, q: seq<nat>)
    requires 1 <= k <= |stamps| && DoublonLines(stamps, k - 1, prev, q)
    requires Repeats(stamps, k - 1)
    ensures DoublonLines(stamps, k, prev + [stamps[k - 1].id], q + [k - 1])
  {
    var d := prev + [stamps[k - 1].id];
    var p := q + [k - 1];
    forall j | 0 <= j < k
      ensures j in p <==> Repeats(stamps, j)
    {
      if j < k - 1 {
        assert j in p <==> j in q;
      } else {
        assert p[|q|] == j;
      }
    }
    assert LinePositions(p, k);
    forall m | 0 <= m < |p|
      ensures d[m] == stamps[p[m]].id
    {
      if m < |q| {
        assert p[m] == q[m];
      }
    }
  }

  /** A publisher line with a new id leaves the picked positions as they are. */
  lemma DoublonLinesSkip(stamps: seq<Stamp>, k: nat, prev: seq<string>, q: seq<nat>)
    requires 1 <= k <= |stamps| && DoublonLines(stamps, k - 1, prev, q)
    requires !Repeats(stamps, k - 1)
    ensures DoublonLines(stamps, k, prev, q)
  {
    forall j | 0 <= j < k
      ensures j in q <==> Repeats(stamps, j)
    {
    }
  }

  /**
   * Without a zero timestamp, there is one interval per line after the
   * first, each the rounded microsecond distance to the line before,
   * duplicates included.
   */
  lemma {:induction false} IntervalsOfNonZeroStamps(stamps: seq<Stamp>, k: nat)
    requires 1 <= k <= |stamps|
    requires forall j :: 0 <= j < k ==> stamps[j].ts != 0
    ensures var iv := PubUpTo(stamps, k).intervals;
      |iv| == k - 1 && forall j :: 0 <= j < k - 1 ==> iv[j] == RoundHalfEven(stamps[j + 1].ts - stamps[j].ts, 1000)
    ensures PubUpTo(stamps, k).prev == Some(stamps[k - 1].ts)
    decreases k
  {
    if k > 1 {
      IntervalsOfNonZeroStamps(stamps, k - 1);
    }
  }

  /** A line after a zero timestamp adds no interval. */
  lemma IntervalSkippedAfterZero(stamps: seq<Stamp>, k: nat)
    requires 1 <= k < |stamps| && stamps[k - 1].ts == 0
    ensures PubUpTo(stamps, k + 1).intervals == PubUpTo(stamps, k).intervals
  {
    assert PubUpTo(stamps, k).prev == Some(0);
  }

  // ---------------------------------------------------------------------
  // The subscriber loop
  // ---------------------------------------------------------------------

  /** What the subscriber loop keeps: `lat_pub_sub`, `missed_rid_list` and the `sub_ts` it sets. */
  datatype SubState = SubState(latencies: seq<int>, missed: seq<string>, subTs: map<string, int>)

  /** The state after the first `k` subscriber lines. */
  function SubUpTo(sub: seq<Stamp>, pubData: map<string, int>, doublons: seq<string>, k: nat): (st: SubState)
    requires k <= |sub|
    decreases k
  {
    if k == 0 then SubState([], [], map[])
    else
      var st := SubUpTo(sub, pubData, doublons, k - 1);
      var s := sub[k - 1];
      if s.id in doublons then st
      else if s.id in pubData then SubState(st.latencies + [s.ts - pubData[s.id]], st.missed, st.subTs[s.id := s.ts])
      else SubState(st.latencies, st.missed + [s.id], st.subTs)
  }

  /** The number of subscriber lines, among the first `k`, whose id is not a duplicate. */
  function CountNonDuplicate(sub: seq<Stamp>, doublons: seq<string>, k: nat): (n: nat)
    requires k <= |sub|
    ensures n <= k
    decreases k
  {
    if k == 0 then 0
    else CountNonDuplicate(sub, doublons, k - 1) + (if sub[k - 1].id in doublons then 0 else 1)
  }

  /**
   * Lines with a duplicate id are ignored; every other line gives a
   * latency or a missed id, so the two lists together are as long as the
   * number of such lines.
   */
  lemma {:induction false} SubAccounting(sub: seq<Stamp>, pubData: map<string, int>, doublons: seq<string>, k: nat)
    requires k <= |sub|
    ensures var st := SubUpTo(sub, pubData, doublons, k);
      |st.latencies| + |st.missed| == CountNonDuplicate(sub, doublons, k)
    decreases k
  {
    if k > 0 {
      SubAccounting(sub, pubData, doublons, k - 1);
    }
  }

  /**
   * `p` picks, in file order, exactly the lines among the first `k` whose
   * id is neither a duplicate nor published, and `missed` holds their ids.
   */
  ghost predicate MissedLines(sub: seq<Stamp>, pubData: map<string, int>, doublons: seq<string>, k: nat,
                              missed: seq<string>, p: seq<nat>)
    requires k <= |sub|
  {
    && |p| == |missed|
    && LinePositions(p, k)
    && (forall j :: 0 <= j < k ==> (j in p <==> sub[j].id !in doublons && sub[j].id !in pubData))
    && (forall m :: 0 <= m < |p| ==> missed[m] == sub[p[m]].id)
  }

  /**
   * `missed_rid_list` holds, in subscriber-file order, one entry per line
   * whose id is neither a duplicate nor published: a missed id was never
   * published, is not a duplicate, and occurs among the subscriber lines.
   */
  lemma {:induction false} MissedNeverPublished(sub: seq<Stamp>, pubData: map<string, int>, doublons: seq<string>, k: nat)
    requires k <= |sub|
    ensures forall m :: 0 <= m < |SubUpTo(sub, pubData, doublons, k).missed| ==>
      var id := SubUpTo(sub, pubData, doublons, k).missed[m];
      id !in pubData && id !in doublons && exists j :: 0 <= j < k && sub[j].id == id
    ensures exists p :: MissedLines(sub, pubData, doublons, k, SubUpTo(sub, pubData, doublons, k).missed, p)
  {
    MissedInFileOrder(sub, pubData, doublons, k);
    var missed := SubUpTo(sub, pubData, doublons, k).missed;
    var p: seq<nat> :| MissedLines(sub, pubData, doublons, k, missed, p);
    forall m | 0 <= m < |missed|
      ensures missed[m] !in pubData && missed[m] !in doublons && exists j :: 0 <= j < k && sub[j].id == missed[m]
    {
      assert p[m] in p;
    }
  }

  /** The missed ids are those of the lines `MissedLines` picks. */
  lemma {:induction false} MissedInFileOrder(sub: seq<Stamp>, pubData: map<string, int>, doublons: seq<string>, k: nat)
    requires k <= |sub|
    ensures exists p :: MissedLines(sub, pubData, doublons, k, SubUpTo(sub, pubData, doublons, k).missed, p)
    decreases k
  {
    if k == 0 {
      var none: seq<nat> := [];
      assert MissedLines(sub, pubData, doublons, 0, SubUpTo(sub, pubData, doublons, 0).missed, none);
    } else {
      var prev := SubUpTo(sub, pubData, doublons, k - 1).missed;
      var s := sub[k - 1];
      var add := s.id !in doublons && s.id !in pubData;
      var missed := SubUpTo(sub, pubData, doublons, k).missed;
      assert missed == if add then prev + [s.id] else prev;
      MissedInFileOrder(sub, pubData, doublons, k - 1);
      var q: seq<nat> :| MissedLines(sub, pubData, doublons, k - 1, prev, q);
      if add {
        MissedLinesAdd(sub, pubData, doublons, k, prev, q);
      } else {
        MissedLinesSkip(sub, pubData, doublons, k, prev, q);
      }
    }
  }

  /** A subscriber line whose id is missed joins the picked positions. */
  lemma MissedLinesAdd(sub: seq<Stamp>, pubData: map<string, int>, doublons: seq<string>, k: nat,
                       prev: seq<string>, q: seq<nat>)
    requires 1 <= k <= |sub| && MissedLines(sub, pubData, doublons, k - 1, prev, q)
    requires sub[k - 1].id !in doublons && sub[k - 1].id !in pubData
    ensures MissedLines(sub, pubData, doublons, k, prev + [sub[k - 1].id], q + [k - 1])
  {
    var missed := prev + [sub[k - 1].id];
    var p := q + [k - 1];
    forall j | 0 <= j < k
      ensures j in p <==> sub[j].id !in doublons && sub[j].id !in pubData
    {
      if j < k - 1 {
        assert j in p <==> j in q;
      } else {
        assert p[|q|] == j;
      }
    }
    assert LinePositions(p, k);
    forall m | 0 <= m < |p|
      ensures missed[m] == sub[p[m]].id
    {
      if m < |q| {
        assert p[m] == q[m];
      }
    }
  }

  /** A subscriber line whose id is not missed leaves the picked positions as they are. */
  lemma MissedLinesSkip(sub: seq<Stamp>, pubData: map<string, int>, doublons: seq<string>, k: nat,
                        prev: seq<string>, q: seq<nat>)
    requires 1 <= k <= |sub| && MissedLines(sub, pubData, doublons, k - 1, prev, q)
    requires !(sub[k - 1].id !in doublons && sub[k - 1].id !in pubData)
    ensures MissedLines(sub, pubData, doublons, k, prev, q)
  {
    forall j | 0 <= j < k
      ensures j in q <==> sub[j].id !in doublons && sub[j].id !in pubData
    {
    }
  }

  /**
   * `sub_ts` is set exactly for the published, non-duplicate ids that the
   * subscriber received, to the timestamp of the last such line.
   */
  lemma {:induction false} SubTsIsLastReception(sub: seq<Stamp>, pubData: map<string, int>, doublons: seq<string>, k: nat)
    requires k <= |sub|
    ensures var st := SubUpTo(sub, pubData, doublons, k);
      forall id :: id in st.subTs <==> id in pubData && id !in doublons && exists j :: 0 <= j < k && sub[j].id == id
    ensures var st := SubUpTo(sub, pubData, doublons, k);
      forall j :: 0 <= j < k && sub[j].id in st.subTs && (forall i :: j < i < k ==> sub[i].id != sub[j].id) ==>
        st.subTs[sub[j].id] == sub[j].ts
    decreases k
  {
    if k > 0 {
      SubTsIsLastReception(sub, pubData, doublons, k - 1);
    }
  }

  /** `lat` is the timestamp of one of the first `k` subscriber lines minus the publisher timestamp of its id. */
  ghost predicate IsReceptionDelay(sub: seq<Stamp>, pubData: map<string, int>, doublons: seq<string>, k: nat, lat: int)
    requires k <= |sub|
  {
    exists j :: 0 <= j < k && sub[j].id in pubData && sub[j].id !in doublons && lat == sub[j].ts - pubData[sub[j].id]
  }

  /**
   * `p` picks, in file order, exactly the lines among the first `k` whose
   * id is published and not a duplicate, and `lat` holds their delays.
   */
  ghost predicate LatencyLines(sub: seq<Stamp>, pubData: map<string, int>, doublons: seq<string>, k: nat,
                               lat: seq<int>, p: seq<nat>)
    requires k <= |sub|
  {
    && |p| == |lat|
    && LinePositions(p, k)
    && (forall j :: 0 <= j < k ==> (j in p <==> sub[j].id !in doublons && sub[j].id in pubData))
    && (forall m :: 0 <= m < |p| ==> sub[p[m]].id in pubData && lat[m] == sub[p[m]].ts - pubData[sub[p[m]].id])
  }

  /**
   * `lat_pub_sub` holds, in subscriber-file order, one latency per line
   * whose id is published and not a duplicate: that line's timestamp minus
   * the first publisher timestamp of its id.
   */
  lemma {:induction false} LatenciesAreDifferences(sub: seq<Stamp>, pubData: map<string, int>, doublons: seq<string>, k: nat)
    requires k <= |sub|
    ensures forall m :: 0 <= m < |SubUpTo(sub, pubData, doublons, k).latencies| ==>
      IsReceptionDelay(sub, pubData, doublons, k, SubUpTo(sub, pubData, doublons, k).latencies[m])
    ensures exists p :: LatencyLines(sub, pubData, doublons, k, SubUpTo(sub, pubData, doublons, k).latencies, p)
  {
    LatenciesInFileOrder(sub, pubData, doublons, k);
    var lat := SubUpTo(sub, pubData, doublons, k).latencies;
    var p: seq<nat> :| LatencyLines(sub, pubData, doublons, k, lat, p);
    forall m | 0 <= m < |lat|
      ensures IsReceptionDelay(sub, pubData, doublons, k, lat[m])
    {
      assert p[m] in p;
    }
  }

  /** The latencies are the delays of the lines `LatencyLines` picks. */
  lemma {:induction false} LatenciesInFileOrder(sub: seq<Stamp>, pubData: map<string, int>, doublons: seq<string>, k: nat)
    requires k <= |sub|
    ensures exists p :: LatencyLines(sub, pubData, doublons, k, SubUpTo(sub, pubData, doublons, k).latencies, p)
    decreases k
  {
    if k == 0 {
      var none: seq<nat> := [];
      assert LatencyLines(sub, pubData, doublons, 0, SubUpTo(sub, pubData, doublons, 0).latencies, none);
    } else {
      var prev := SubUpTo(sub, pubData, doublons, k - 1).latencies;
      var s := sub[k - 1];
      var add := s.id !in doublons && s.id in pubData;
      var lat := SubUpTo(sub, pubData, doublons, k).latencies;
      assert lat == if add then prev + [s.ts - pubData[s.id]] else prev;
      LatenciesInFileOrder(sub, pubData, doublons, k - 1);
      var q: seq<nat> :| LatencyLines(sub, pubData, doublons, k - 1, prev, q);
      if add {
        LatencyLinesAdd(sub, pubData, doublons, k, prev, q);
      } else {
        LatencyLinesSkip(sub, pubData, doublons, k, prev, q);
      }
    }
  }

  /** A subscriber line that yields a latency joins the picked positions. */
  lemma LatencyLinesAdd(sub: seq<Stamp>, pubData: map<string, int>, doublons: seq<string>, k: nat,
                        prev: seq<int>, q: seq<nat>)
    requires 1 <= k <= |sub| && LatencyLines(sub, pubData, doublons, k - 1, prev, q)
    requires sub[k - 1].id !in doublons && sub[k - 1].id in pubData
    ensures LatencyLines(sub, pubData, doublons, k, prev + [sub[k - 1].ts - pubData[sub[k - 1].id]], q + [k - 1])
  {
    var lat := prev + [sub[k - 1].ts - pubData[sub[k - 1].id]];
    var p := q + [k - 1];
    forall j | 0 <= j < k
      ensures j in p <==> sub[j].id !in doublons && sub[j].id in pubData
    {
      if j < k - 1 {
        assert j in p <==> j in q;
      } else {
        assert p[|q|] == j;
      }
    }
    assert LinePositions(p, k);
    forall m | 0 <= m < |p|
      ensures sub[p[m]].id in pubData && lat[m] == sub[p[m]].ts - pubData[sub[p[m]].id]
    {
      if m < |q| {
        assert p[m] == q[m];
      }
    }
  }

  /** A subscriber line that yields no latency leaves the picked positions as they are. */
  lemma LatencyLinesSkip(sub: seq<Stamp>, pubData: map<string, int>, doublons: seq<string>, k: nat,
                         prev: seq<int>, q: seq<nat>)
    requires 1 <= k <= |sub| && LatencyLines(sub, pubData, doublons, k - 1, prev, q)
    requires !(sub[k - 1].id !in doublons && sub[k - 1].id in pubData)
    ensures LatencyLines(sub, pubData, doublons, k, prev, q)
  {
    forall j | 0 <= j < k
      ensures j in q <==> sub[j].id !in doublons && sub[j].id in pubData
    {
    }
  }

  // ---------------------------------------------------------------------
  // Trimming and the machine names
  // ---------------------------------------------------------------------

  /** Python's `xs[n:]`. */
  function SkipFirst<T>(xs: seq<T>, n: nat): (r: seq<T>)
    ensures |r| == if n <= |xs| then |xs| - n else 0
  {
    if n <= |xs| then xs[n..] else []
  }

  /** With `skip_first_n = 0` nothing is dropped. */
  lemma SkipNothing<T>(xs: seq<T>)
    ensures SkipFirst(xs, SkipFirstN) == xs
  {
  }

  /** `path.split("_")[-1].split(".")[0]`. */
  function MachineName(path: string): string
  {
    var parts := Split(path, '_');
    Split(parts[|parts| - 1], '.')[0]
  }

  /** The machine name of `<anything>_<name>.<ext>` is `<name>`. */
  lemma MachineNameOfPath(prefix: string, name: string, ext: string)
    requires '_' !in name && '.' !in name && '_' !in ext
    ensures MachineName(prefix + "_" + name + "." + ext) == name
  {
    var file := name + ['.'] + ext;
    assert prefix + "_" + name + "." + ext == prefix + ['_'] + file;
    assert '_' !in file;
    SplitLast(prefix, '_', file);
    SplitAtFirst(name, '.', ext);
  }

  // ---------------------------------------------------------------------
  // `main`
  // ---------------------------------------------------------------------

  /** How `main` stops. */
  datatype AnalysisError =
    | ReadFailed(error: ReadError)
    | NoLatencies   // `statistics.pstdev([])`: StatisticsError
    | NoIntervals

  /**
   * What `main` computes: the trimmed lists, the duplicates, the `SV`
   * records by id, the series of the two histograms and the machine names.
   */
  datatype Analysis = Analysis(
    intervals: seq<int>, latencies: seq<int>, missed: seq<string>, doublons: seq<string>,
    svData: map<string, SV>, delayHist: Histogram, intervalHist: Histogram,
    subMachine: string, pubMachine: string)

  /** The delays in microseconds the first histogram is built from. */
  function DelaysInMicros(lat: seq<int>): (r: seq<int>)
    ensures |r| == |lat|
  {
    seq(|lat|, i requires 0 <= i < |lat| => RoundHalfEven(lat[i], 1000))
  }

  /**
   * Both files read and both loops run: the publisher state and the
   * subscriber state, or the first line that cannot be read. The model
   * reads each file before its loop; since the loops only accumulate, a
   * failure leaves the same outcome as the lazy reader.
   */
  function Matching(pubLines: seq<string>, subLines: seq<string>): Result<(PubState, SubState), ReadError>
  {
    match ReadFile(pubLines, Publisher)
    case Err(e) => Err(e)
    case Ok(pub) =>
      match ReadFile(subLines, Subscriber)
      case Err(e) => Err(e)
      case Ok(sub) =>
        var ps := PubUpTo(pub, |pub|);
        Ok((ps, SubUpTo(sub, ps.pubData, ps.doublons, |sub|)))
  }

  /** The `SV` records agree with the two loops: one per published id, its reception time if any. */
  ghost predicate RecordsMatch(svData: map<string, SV>, pubData: map<string, int>, subTs: map<string, int>)
    reads set id | id in svData :: svData[id]
  {
    && svData.Keys == pubData.Keys
    && forall id :: id in svData ==>
      (&& svData[id].pubHwts == pubData[id]
       && svData[id].pubBts == None && svData[id].pubAts == None
       && svData[id].subTs == (if id in subTs then Some(subTs[id]) else None))
  }

  /** Distinct ids have distinct records. */
  ghost predicate Distinct(svData: map<string, SV>)
  {
    forall a, b :: a in svData && b in svData && a != b ==> svData[a] != svData[b]
  }

  /** The publisher loop: `pub_data`, one new `SV` per new id, the duplicates and the intervals. */
  method PublisherPass(pub: seq<Stamp>)
    returns (pubData: map<string, int>, svData: map<string, SV>, doublons: seq<string>, intervals: seq<int>)
    ensures PubUpTo(pub, |pub|).pubData == pubData
    ensures PubUpTo(pub, |pub|).doublons == doublons
    ensures PubUpTo(pub, |pub|).intervals == intervals
    ensures RecordsMatch(svData, pubData, map[])
    ensures Distinct(svData)
    ensures forall id :: id in svData ==> fresh(svData[id])
  {
    pubData, svData, doublons, intervals := map[], map[], [], [];
    var prev: Option<int> := None;
    for i := 0 to |pub|
      invariant PubUpTo(pub, i) == PubState(pubData, doublons, intervals, prev)
      invariant RecordsMatch(svData, pubData, map[])
      invariant Distinct(svData)
      invariant forall id :: id in svData ==> fresh(svData[id])
    {
      var rid := pub[i].id;
      var hwTs := pub[i].ts;
      if rid in pubData {
        doublons := doublons + [rid];
      } else {
        pubData := pubData[rid := hwTs];
        var record := new SV(hwTs, None, None);
        assert forall id :: id in svData ==> svData[id] != record;
        svData := svData[rid := record];
      }
      if Truthy(prev) {
        intervals := intervals + [RoundHalfEven(hwTs - prev.value, 1000)];
      }
      prev := Some(hwTs);
    }
  }

  /** The subscriber loop: latencies, missed ids, and `sub_ts` set on the matching records. */
  method SubscriberPass(sub: seq<Stamp>, pubData: map<string, int>, doublons: seq<string>, svData: map<string, SV>)
    returns (latencies: seq<int>, missed: seq<string>)
    requires RecordsMatch(svData, pubData, map[]) && Distinct(svData)
    modifies set id | id in svData :: svData[id]
    ensures SubUpTo(sub, pubData, doublons, |sub|).latencies == latencies
    ensures SubUpTo(sub, pubData, doublons, |sub|).missed == missed
    ensures RecordsMatch(svData, pubData, SubUpTo(sub, pubData, doublons, |sub|).subTs)
  {
    latencies, missed := [], [];
    ghost var subTs: map<string, int> := map[];
    for i := 0 to |sub|
      invariant SubUpTo(sub, pubData, doublons, i) == SubState(latencies, missed, subTs)
      invariant RecordsMatch(svData, pubData, subTs)
    {
      var rid := sub[i].id;
      var ts := sub[i].ts;
      if rid !in doublons {
        if rid in pubData {
          latencies := latencies + [ts - pubData[rid]];
          svData[rid].subTs := Some(ts);
          subTs := subTs[rid := ts];
        } else {
          missed := missed + [rid];
        }
      }
    }
  }

  /**
   * The body of `main` from the two files' lines and paths. `pub_only`,
   * `extra_ts` and `debug` are off, as the script sets them.
   */
  method AnalyzeTimestamps(pubLines: seq<string>, subLines: seq<string>, pubPath: string, subPath: string)
    returns (r: Result<Analysis, AnalysisError>)
    ensures Matching(pubLines, subLines).Err? ==> r == Err(ReadFailed(Matching(pubLines, subLines).error))
    ensures Matching(pubLines, subLines).Ok? ==>
      var ps := Matching(pubLines, subLines).value.0;
      var ss := Matching(pubLines, subLines).value.1;
      var lat := SkipFirst(ss.latencies, SkipFirstN);
      var iv := SkipFirst(ps.intervals, SkipFirstN);
      if lat == [] then r == Err(NoLatencies)
      else if iv == [] then r == Err(NoIntervals)
      else
        && r.Ok?
        && r.value.intervals == iv && r.value.latencies == lat
        && r.value.missed == ss.missed && r.value.doublons == ps.doublons
        && r.value.delayHist == Hist(DelaysInMicros(lat)) && r.value.intervalHist == Hist(iv)
        && r.value.subMachine == MachineName(subPath) && r.value.pubMachine == MachineName(pubPath)
        && RecordsMatch(r.value.svData, ps.pubData, ss.subTs)
    ensures r.Ok? ==> Distinct(r.value.svData)
    ensures r.Ok? ==> forall id :: id in r.value.svData ==> fresh(r.value.svData[id])
  {
    var readPub := ReadStamps(pubLines, Publisher);
    if readPub.Err? {
      return Err(ReadFailed(readPub.error));
    }
    var pub := readPub.value;
    var pubData, svData, doublons, intervals := PublisherPass(pub);

    var readSub := ReadStamps(subLines, Subscriber);
    if readSub.Err? {
      return Err(ReadFailed(readSub.error));
    }
    var sub := readSub.value;
    var latencies, missed := SubscriberPass(sub, pubData, doublons, svData);

    latencies := SkipFirst(latencies, SkipFirstN);
    intervals := SkipFirst(intervals, SkipFirstN);
    if latencies == [] {
      return Err(NoLatencies);
    }
    if intervals == [] {
      return Err(NoIntervals);
    }
    var delayHist := Hist(DelaysInMicros(latencies));
    var intervalHist := Hist(intervals);
    r := Ok(Analysis(intervals, latencies, missed, doublons, svData, delayHist, intervalHist,
                     MachineName(subPath), MachineName(pubPath)));
  }
}
