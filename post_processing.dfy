/**
 * Helpers shared by the timestamp analysis: the `SV` record of one
 * sampled value's timestamps, the reader of `<id> <sec> <nsec> ...`
 * lines, the histogram series builder and the `hh:mm:ss.us` parser.
 */
module PostProcessing {
  import opened Wrappers
  import opened Text
  import opened Ordering

  const NanosPerSecond: int := 1000000000
  const MicrosPerSecond: int := 1000000

  /** Python truthiness of an optional integer: `None` and `0` are false. */
  predicate Truthy(v: Option<int>)
  {
    v.Some? && v.value != 0
  }

  /**
   * The timestamps of one sampled value. The publisher hardware
   * timestamp is always stored; the clock readings before and after
   * are stored only when they are truthy, so `0` leaves them `None`.
   * The subscriber timestamp starts as `None` and is set later by the
   * matcher.
   */
  class SV {
    var pubBts: Option<int>
    var pubAts: Option<int>
    var pubHwts: int
    var subTs: Option<int>

    constructor (pubHwts: int, pubBts: Option<int>, pubAts: Option<int>)
      ensures this.pubHwts == pubHwts
      ensures this.pubBts == (if Truthy(pubBts) then pubBts else None)
      ensures this.pubAts == (if Truthy(pubAts) then pubAts else None)
      ensures this.subTs == None
    {
      this.pubHwts := pubHwts;
      this.pubBts := None;
      this.pubAts := None;
      this.subTs := None;
      new;
      if Truthy(pubBts) {
        this.pubBts := pubBts;
      }
      if Truthy(pubAts) {
        this.pubAts := pubAts;
      }
    }
  }

  /** One line of a timestamp file: the packet id and the nanosecond timestamps that follow it. */
  datatype ResultRecord = ResultRecord(id: string, values: seq<int>)

  /**
   * Reads fields two at a time as `<sec> <nsec>` and joins each pair into
   * nanoseconds; a last unpaired field is dropped. `None` when a field
   * that is read is not an integer.
   */
  function ParsePairs(fields: seq<string>): (r: Option<seq<int>>)
    ensures r.Some? ==> |r.value| == |fields| / 2
    decreases |fields|
  {
    if |fields| < 2 then Some([])
    else
      match (ParseInt(fields[0]), ParseInt(fields[1]), ParsePairs(fields[2..]))
      case (Some(sec), Some(nsec), Some(values)) => Some([sec * NanosPerSecond + nsec] + values)
      case _ => None
  }

  /** Every field read must be an integer. */
  predicate PairFieldsAreIntegers(fields: seq<string>)
  {
    forall i :: 0 <= i < 2 * (|fields| / 2) ==> ParseInt(fields[i]).Some?
  }

  lemma PairFieldsCons(fields: seq<string>)
    requires |fields| >= 2
    ensures PairFieldsAreIntegers(fields) <==>
      ParseInt(fields[0]).Some? && ParseInt(fields[1]).Some? && PairFieldsAreIntegers(fields[2..])
  {
    var tail := fields[2..];
    assert 2 * (|fields| / 2) == 2 * (|tail| / 2) + 2;
    if ParseInt(fields[0]).Some? && ParseInt(fields[1]).Some? && PairFieldsAreIntegers(tail) {
      forall i | 0 <= i < 2 * (|fields| / 2) ensures ParseInt(fields[i]).Some? {
        if i >= 2 { assert fields[i] == tail[i - 2]; }
      }
    }
    if PairFieldsAreIntegers(fields) {
      forall i | 0 <= i < 2 * (|tail| / 2) ensures ParseInt(tail[i]).Some? {
        assert tail[i] == fields[i + 2];
      }
    }
  }

  /** `ParsePairs` succeeds exactly when every field it reads is an integer. */
  lemma {:induction false} ParsePairsSucceeds(fields: seq<string>)
    ensures ParsePairs(fields).Some? <==> PairFieldsAreIntegers(fields)
    decreases |fields|
  {
    if |fields| >= 2 {
      ParsePairsSucceeds(fields[2..]);
      PairFieldsCons(fields);
    }
  }

  /** Value `k` of `ParsePairs` is `int(f[2k]) * 10^9 + int(f[2k+1])`. */
  lemma {:induction false} ParsePairsValues(fields: seq<string>, k: nat)
    requires ParsePairs(fields).Some? && k < |fields| / 2
    ensures ParseInt(fields[2 * k]).Some? && ParseInt(fields[2 * k + 1]).Some?
    ensures ParsePairs(fields).value[k]
         == ParseInt(fields[2 * k]).value * NanosPerSecond + ParseInt(fields[2 * k + 1]).value
    decreases k
  {
    if k > 0 {
      var tail := fields[2..];
      assert |tail| / 2 == |fields| / 2 - 1;
      assert 2 * k == 2 * (k - 1) + 2;
      ParsePairsValues(tail, k - 1);
      assert fields[2 * k] == tail[2 * (k - 1)] && fields[2 * k + 1] == tail[2 * (k - 1) + 1];
    }
  }

  /**
   * One step of `results_reader`: the line without its surrounding
   * newlines, split on single spaces; the first field is the id, each
   * following `<sec> <nsec>` pair becomes `sec * 10^9 + nsec`.
   */
  function ParseResultLine(line: string): Option<ResultRecord>
  {
    var data := Split(Strip(line, {'\n'}), ' ');
    match ParsePairs(data[1..])
    case Some(values) => Some(ResultRecord(data[0], values))
    case None => None
  }

  /**
   * A line reads iff every field after the id that is paired is an integer;
   * the record's id is the first field and value `k` is pair `k` in nanoseconds.
   */
  lemma ParseResultLineShape(line: string)
    ensures var data := Split(Strip(line, {'\n'}), ' ');
      && (ParseResultLine(line).Some? <==> PairFieldsAreIntegers(data[1..]))
      && (ParseResultLine(line).Some? ==>
            && ParseResultLine(line).value.id == data[0]
            && |ParseResultLine(line).value.values| == (|data| - 1) / 2
            && forall k :: 0 <= k < (|data| - 1) / 2 ==>
                 ParseResultLine(line).value.values[k]
                 == ParseInt(data[1 + 2 * k]).value * NanosPerSecond + ParseInt(data[2 + 2 * k]).value)
  {
    var data := Split(Strip(line, {'\n'}), ' ');
    var fields := data[1..];
    ParsePairsSucceeds(fields);
    if ParseResultLine(line).Some? {
      forall k | 0 <= k < (|data| - 1) / 2
        ensures ParseResultLine(line).value.values[k]
             == ParseInt(data[1 + 2 * k]).value * NanosPerSecond + ParseInt(data[2 + 2 * k]).value
      {
        ParsePairsValues(fields, k);
        assert fields[2 * k] == data[1 + 2 * k] && fields[2 * k + 1] == data[2 + 2 * k];
      }
    }
  }

  /** Reading a line whose fields are known. */
  lemma ParseResultLineOfFields(line: string, id: string, sec: string, nsec: string)
    requires Split(Strip(line, {'\n'}), ' ') == [id, sec, nsec]
    requires ParseInt(sec).Some? && ParseInt(nsec).Some?
    ensures ParseResultLine(line)
         == Some(ResultRecord(id, [ParseInt(sec).value * NanosPerSecond + ParseInt(nsec).value]))
  {
    var data := [id, sec, nsec];
    assert data[1..] == [sec, nsec];
    var f := [sec, nsec];
    assert f[2..] == [];
    var v := ParseInt(sec).value * NanosPerSecond + ParseInt(nsec).value;
    assert ParsePairs(f) == Some([v] + []);
    assert [v] + [] == [v];
  }

  /** A timestamp file line `<id> <sec> <nsec>`, newline included. */
  function FormatResultLine(id: string, sec: nat, nsec: nat): string
  {
    id + [' '] + Show(sec) + [' '] + Show(nsec) + ['\n']
  }

  /** The fields of such a line. */
  lemma FormattedLineSplits(id: string, a: string, b: string)
    requires ' ' !in id && '\n' !in id && AllDigits(a) && AllDigits(b)
    ensures Split(Strip(id + [' '] + a + [' '] + b + ['\n'], {'\n'}), ' ') == [id, a, b]
  {
    DigitsHaveNoSeparator(a);
    DigitsHaveNoSeparator(b);
    var body := id + [' '] + a + [' '] + b;
    assert '\n' !in body;
    StripTrailing(body, '\n');
    SplitThree(id, a, b, ' ');
  }

  /** A line written as `<id> <sec> <nsec>` reads back as that id and `sec * 10^9 + nsec`. */
  lemma ParseResultLineRoundTrip(id: string, sec: nat, nsec: nat)
    requires ' ' !in id && '\n' !in id
    ensures ParseResultLine(FormatResultLine(id, sec, nsec))
         == Some(ResultRecord(id, [sec * NanosPerSecond + nsec]))
  {
    var a, b := Show(sec), Show(nsec);
    FormattedLineSplits(id, a, b);
    ParseIntShow(sec);
    ParseIntShow(nsec);
    ParseResultLineOfFields(FormatResultLine(id, sec, nsec), id, a, b);
  }

  /** Python's `data.count(k)`: how many times `k` occurs. */
  function Count(data: seq<int>, k: int): (n: nat)
    ensures n == multiset(data)[k]
    decreases |data|
  {
    if data == [] then 0
    else
      assert data == [data[0]] + data[1..];
      (if data[0] == k then 1 else 0) + Count(data[1..], k)
  }

  /** The series of a bar plot: the distinct values and how often each occurs. */
  datatype Histogram = Histogram(values: seq<int>, counts: seq<int>)

  function Sum(s: seq<int>): int
    decreases |s|
  {
    if s == [] then 0 else s[0] + Sum(s[1..])
  }

  /**
   * `hist(data)`: the sorted distinct values of `data`, and for each of
   * them the number of times it occurs.
   */
  function Hist(data: seq<int>): (h: Histogram)
    ensures |h.counts| == |h.values|
    ensures StrictlySorted(h.values, IntLess)
    ensures Elems(h.values) == Elems(data)
    ensures forall i :: 0 <= i < |h.values| ==> h.counts[i] == multiset(data)[h.values[i]] >= 1
  {
    var xs := SortedDistinct(data, IntLess);
    IntLessStrictTotal();
    SortedDistinctStrictlySorted(data, IntLess);
    var ys := seq(|xs|, i requires 0 <= i < |xs| => Count(data, xs[i]));
    assert forall i :: 0 <= i < |xs| ==> xs[i] in Elems(data);
    Histogram(xs, ys)
  }

  /** Σ over the listed values of their multiplicity in `data`. */
  function Multiplicities(xs: seq<int>, data: seq<int>): int
    decreases |xs|
  {
    if xs == [] then 0 else multiset(data)[xs[0]] + Multiplicities(xs[1..], data)
  }

  /** How many times `d` is listed in `xs`. */
  function Occurrences(xs: seq<int>, d: int): nat
    decreases |xs|
  {
    if xs == [] then 0 else (if xs[0] == d then 1 else 0) + Occurrences(xs[1..], d)
  }

  lemma {:induction false} MultiplicitiesCons(xs: seq<int>, d: int, rest: seq<int>)
    ensures Multiplicities(xs, [d] + rest) == Multiplicities(xs, rest) + Occurrences(xs, d)
    decreases |xs|
  {
    if xs != [] {
      MultiplicitiesCons(xs[1..], d, rest);
      assert multiset([d] + rest) == multiset{d} + multiset(rest);
    }
  }

  lemma {:induction false} OccurrencesOfListedValue(xs: seq<int>, d: int)
    requires StrictlySorted(xs, IntLess) && d in xs
    ensures Occurrences(xs, d) == 1
    decreases |xs|
  {
    if xs[0] == d {
      OccurrencesAbsent(xs[1..], d);
    } else {
      OccurrencesOfListedValue(xs[1..], d);
    }
  }

  lemma {:induction false} OccurrencesAbsent(xs: seq<int>, d: int)
    requires StrictlySorted([d] + xs, IntLess)
    ensures Occurrences(xs, d) == 0
    decreases |xs|
  {
    if xs != [] {
      var t := [d] + xs;
      assert t[0] < t[1];
      assert StrictlySorted([d] + xs[1..], IntLess) by {
        forall i, j | 0 <= i < j < |xs| ensures IntLess(([d] + xs[1..])[i], ([d] + xs[1..])[j]) {
          assert ([d] + xs[1..])[i] == t[if i == 0 then 0 else i + 1];
          assert ([d] + xs[1..])[j] == t[j + 1];
        }
      }
      OccurrencesAbsent(xs[1..], d);
    }
  }

  lemma {:induction false} MultiplicitiesCover(xs: seq<int>, data: seq<int>)
    requires StrictlySorted(xs, IntLess) && Elems(data) <= Elems(xs)
    ensures Multiplicities(xs, data) == |data|
    decreases |data|
  {
    if data == [] {
      MultiplicitiesOfNothing(xs);
    } else {
      var rest := data[1..];
      assert data == [data[0]] + rest;
      assert data[0] in Elems(data);
      assert Elems(rest) <= Elems(data);
      MultiplicitiesCover(xs, rest);
      MultiplicitiesCons(xs, data[0], rest);
      OccurrencesOfListedValue(xs, data[0]);
    }
  }

  lemma {:induction false} MultiplicitiesOfNothing(xs: seq<int>)
    ensures Multiplicities(xs, []) == 0
    decreases |xs|
  {
    if xs != [] { MultiplicitiesOfNothing(xs[1..]); }
  }

  lemma {:induction false} SumIsMultiplicities(h: Histogram, data: seq<int>)
    requires h == Hist(data)
    ensures Sum(h.counts) == Multiplicities(h.values, data)
  {
    SumPrefixes(h.values, h.counts, data);
  }

  lemma {:induction false} SumPrefixes(xs: seq<int>, ys: seq<int>, data: seq<int>)
    requires |xs| == |ys| && forall i :: 0 <= i < |xs| ==> ys[i] == multiset(data)[xs[i]]
    ensures Sum(ys) == Multiplicities(xs, data)
    decreases |xs|
  {
    if xs != [] { SumPrefixes(xs[1..], ys[1..], data); }
  }

  /** The counts of `hist(data)` add up to the number of data points. */
  lemma HistCountsSum(data: seq<int>)
    ensures Sum(Hist(data).counts) == |data|
  {
    var h := Hist(data);
    SumIsMultiplicities(h, data);
    MultiplicitiesCover(h.values, data);
  }

  datatype TsError =
    | BadTimeFormat   // the `assert` on the number of fields fails
    | NotAnInteger    // `int()` raises ValueError

  /**
   * `ts_as_int`: `hh:mm:ss.us` to microseconds. Exactly three
   * colon-separated fields are demanded, and exactly two dot-separated
   * ones in the last; minutes and seconds are not range-checked and the
   * fraction is taken as a whole number of microseconds.
   */
  function TsAsInt(ts: string): (r: Result<int, TsError>)
    ensures var parts := Split(ts, ':');
      r == Err(BadTimeFormat) <==> |parts| != 3 || |Split(parts[2], '.')| != 2
  {
    var parts := Split(ts, ':');
    if |parts| != 3 then Err(BadTimeFormat)
    else
      var sec := Split(parts[2], '.');
      if |sec| != 2 then Err(BadTimeFormat)
      else
        match (ParseInt(sec[1]), ParseInt(sec[0]), ParseInt(parts[1]), ParseInt(parts[0]))
        case (Some(us), Some(ss), Some(mm), Some(hh)) =>
          Ok(us + ss * MicrosPerSecond + mm * 60 * MicrosPerSecond + hh * 3600 * MicrosPerSecond)
        case _ => Err(NotAnInteger)
  }

  /** Reading a time whose fields are known. */
  lemma TsAsIntOfParts(ts: string, h: string, m: string, secs: string, s: string, u: string)
    requires Split(ts, ':') == [h, m, secs] && Split(secs, '.') == [s, u]
    requires ParseInt(h).Some? && ParseInt(m).Some? && ParseInt(s).Some? && ParseInt(u).Some?
    ensures TsAsInt(ts) == Ok(ParseInt(u).value + ParseInt(s).value * MicrosPerSecond
      + ParseInt(m).value * 60 * MicrosPerSecond + ParseInt(h).value * 3600 * MicrosPerSecond)
  {
  }

  /** The fields of a time written as `hh:mm:ss.us` in decimal. */
  lemma FormattedTimeSplits(h: string, m: string, s: string, u: string)
    requires AllDigits(h) && AllDigits(m) && AllDigits(s) && AllDigits(u)
    ensures Split(h + [':'] + m + [':'] + s + ['.'] + u, ':') == [h, m, s + ['.'] + u]
    ensures Split(s + ['.'] + u, '.') == [s, u]
  {
    DigitsHaveNoSeparator(h);
    DigitsHaveNoSeparator(m);
    DigitsHaveNoSeparator(s);
    DigitsHaveNoSeparator(u);
    var secs := s + ['.'] + u;
    assert ':' !in secs;
    assert h + [':'] + m + [':'] + s + ['.'] + u == h + [':'] + m + [':'] + secs;
    SplitThree(h, m, secs, ':');
    SplitTwo(s, u, '.');
  }

  /** `hh:mm:ss.us` written with decimal numbers. */
  function FormatTime(hh: nat, mm: nat, ss: nat, us: nat): string
  {
    Show(hh) + [':'] + Show(mm) + [':'] + Show(ss) + ['.'] + Show(us)
  }

  /**
   * Any `hh:mm:ss.us` written with decimal numbers reads back as their
   * weighted sum; `mm` and `ss` may exceed 59 and `us` is not scaled.
   */
  lemma TsAsIntOfFields(hh: nat, mm: nat, ss: nat, us: nat)
    ensures TsAsInt(FormatTime(hh, mm, ss, us))
         == Ok(us + ss * MicrosPerSecond + mm * 60 * MicrosPerSecond + hh * 3600 * MicrosPerSecond)
  {
    var h, m, s, u := Show(hh), Show(mm), Show(ss), Show(us);
    FormattedTimeSplits(h, m, s, u);
    ParseIntShow(hh);
    ParseIntShow(mm);
    ParseIntShow(ss);
    ParseIntShow(us);
    TsAsIntOfParts(FormatTime(hh, mm, ss, us), h, m, s + ['.'] + u, s, u);
  }
}
