/** `analyze_timing`: turns a capture's transition timestamps into interval durations
    (in microseconds), splits them into HIGH and LOW levels, and summarises each. */
module Timing {
  import opened Stats

  /** Microseconds per second (the `* 1e6` scaling). */
  const MicrosPerSecond: real := 1000000.0

  /** A decoded capture: transition timestamps in seconds and the level before the
      first transition (0 = LOW, anything else = HIGH). */
  datatype Capture = Capture(times: seq<real>, initialState: int, beginTime: real, endTime: real)

  /** min/max/mean over every interval (`analysis['all']`). */
  datatype Summary = Summary(minUs: real, maxUs: real, meanUs: real)

  /** Count and min/max/mean of one level's intervals; 0 stands in for an empty level. */
  datatype LevelSummary = LevelSummary(count: nat, minUs: real, maxUs: real, meanUs: real)

  datatype Analysis = Analysis(
    totalTransitions: nat,
    captureDurationS: real,
    signalDurationS: real,
    initialHigh: bool,
    all: Summary,
    high: LevelSummary,
    low: LevelSummary,
    durationsUs: seq<real>,
    highDurationsUs: seq<real>,
    lowDurationsUs: seq<real>)

  /** The result of `analyze_timing`: the error marker or the analysis. */
  datatype Outcome = NotEnoughTransitions | Analyzed(analysis: Analysis)

  ghost predicate StrictlyIncreasing(times: seq<real>) {
    forall i :: 0 <= i < |times| - 1 ==> times[i] < times[i + 1]
  }

  /** `np.diff(times) * 1e6`: the gap between each transition and the next, in µs. */
  function DurationsUs(times: seq<real>): (r: seq<real>)
    ensures |r| == if |times| < 2 then 0 else |times| - 1
  {
    if |times| < 2 then [] else [(times[1] - times[0]) * MicrosPerSecond] + DurationsUs(times[1..])
  }

  /** `s[k::2]`: the elements at positions k, k + 2, k + 4, ... */
  function Stride(s: seq<real>, k: nat): seq<real>
    decreases |s| - k
  {
    if k >= |s| then [] else [s[k]] + Stride(s, k + 2)
  }

  /** The position parity of the HIGH intervals: interval 0 follows the first
      transition, so it is HIGH exactly when the signal started LOW. */
  function HighParity(initialState: int): nat {
    if initialState == 0 then 0 else 1
  }

  /** Interval `i` (from transition i to transition i + 1) is a HIGH interval. */
  predicate IsHighInterval(initialState: int, i: nat) {
    i % 2 == HighParity(initialState)
  }

  function Summarize(s: seq<real>): Summary
    requires s != []
  {
    Summary(Min(s), Max(s), Mean(s))
  }

  function SummarizeLevel(s: seq<real>): LevelSummary {
    if |s| > 0 then LevelSummary(|s|, Min(s), Max(s), Mean(s))
    else LevelSummary(0, 0.0, 0.0, 0.0)
  }

  function AnalyzeTiming(c: Capture): (r: Outcome)
    ensures r.NotEnoughTransitions? <==> |c.times| < 2
    ensures r.Analyzed? ==> |r.analysis.durationsUs| == |c.times| - 1
  {
    if |c.times| < 2 then NotEnoughTransitions
    else
      var durations := DurationsUs(c.times);
      var highIdx := HighParity(c.initialState);
      var lowIdx := 1 - highIdx;
      var high := Stride(durations, highIdx);
      var low := Stride(durations, lowIdx);
      Analyzed(Analysis(
        |c.times|,
        c.endTime - c.beginTime,
        c.times[|c.times| - 1] - c.times[0],
        c.initialState != 0,
        Summarize(durations),
        SummarizeLevel(high),
        SummarizeLevel(low),
        durations,
        high,
        low))
  }

  // ---------------------------------------------------------------------------
  // Properties

  /** Duration i is the gap between transitions i and i + 1. */
  lemma {:induction false} DurationsUsAt(times: seq<real>, i: nat)
    requires i < |times| - 1
    ensures DurationsUs(times)[i] == (times[i + 1] - times[i]) * MicrosPerSecond
  {
    if i > 0 {
      DurationsUsAt(times[1..], i - 1);
    }
  }

  /** The durations telescope to the span from the first to the last transition. */
  lemma {:induction false} DurationsUsSum(times: seq<real>)
    requires |times| >= 1
    ensures Sum(DurationsUs(times)) == (times[|times| - 1] - times[0]) * MicrosPerSecond
  {
    if |times| >= 2 {
      DurationsUsSum(times[1..]);
    }
  }

  /** Strictly increasing timestamps give strictly positive durations. */
  lemma DurationsUsPositive(times: seq<real>)
    requires StrictlyIncreasing(times)
    ensures Positive(DurationsUs(times))
  {
    forall i | 0 <= i < |DurationsUs(times)| ensures DurationsUs(times)[i] > 0.0 {
      DurationsUsAt(times, i);
    }
  }

  /** `s[k::2]` has ceil((|s| - k) / 2) elements and its j-th is s[k + 2j]. */
  lemma {:induction false} StrideAt(s: seq<real>, k: nat)
    ensures |Stride(s, k)| == if k >= |s| then 0 else (|s| - k + 1) / 2
    ensures forall j :: 0 <= j < |Stride(s, k)| ==> Stride(s, k)[j] == s[k + 2 * j]
    decreases |s| - k
  {
    if k < |s| {
      StrideAt(s, k + 2);
    }
  }

  /** Dropping the first element shifts each stride by one position. */
  lemma StrideShift(s: seq<real>)
    requires s != []
    ensures Stride(s, 1) == Stride(s[1..], 0)
    ensures Stride(s, 0) == [s[0]] + Stride(s[1..], 1)
  {
    StrideAt(s, 1);
    StrideAt(s[1..], 0);
    StrideAt(s, 2);
    StrideAt(s[1..], 1);
    assert Stride(s, 0) == [s[0]] + Stride(s, 2);
  }

  /** The two strides `s[0::2]` and `s[1::2]` split `s` between them. */
  lemma {:induction false} StrideSplit(s: seq<real>)
    ensures multiset(Stride(s, 0)) + multiset(Stride(s, 1)) == multiset(s)
  {
    if s != [] {
      StrideShift(s);
      StrideSplit(s[1..]);
      assert s == [s[0]] + s[1..];
    }
  }

  /** Analysis of a capture with at least two transitions: the recorded counts and
      spans, and the durations, which are the gaps between consecutive transitions
      and add up to the signal duration. */
  lemma AnalyzeTimingDurations(c: Capture)
    requires |c.times| >= 2
    ensures var a := AnalyzeTiming(c).analysis;
      && a.totalTransitions == |c.times|
      && a.signalDurationS == c.times[|c.times| - 1] - c.times[0]
      && a.captureDurationS == c.endTime - c.beginTime
      && a.initialHigh == (c.initialState != 0)
      && (forall i :: 0 <= i < |a.durationsUs| ==> a.durationsUs[i] == (c.times[i + 1] - c.times[i]) * MicrosPerSecond)
      && Sum(a.durationsUs) == a.signalDurationS * MicrosPerSecond
  {
    var a := AnalyzeTiming(c).analysis;
    forall i | 0 <= i < |a.durationsUs|
      ensures a.durationsUs[i] == (c.times[i + 1] - c.times[i]) * MicrosPerSecond
    {
      DurationsUsAt(c.times, i);
    }
    DurationsUsSum(c.times);
  }

  /** The level split: together the HIGH and LOW intervals are every interval,
      each exactly once, so their counts add up to n - 1. */
  lemma AnalyzeTimingSplit(c: Capture)
    requires |c.times| >= 2
    ensures var a := AnalyzeTiming(c).analysis;
      && multiset(a.highDurationsUs) + multiset(a.lowDurationsUs) == multiset(a.durationsUs)
      && a.high.count + a.low.count == |c.times| - 1
  {
    var a := AnalyzeTiming(c).analysis;
    StrideSplit(a.durationsUs);
    assert a.high.count == |a.highDurationsUs| && a.low.count == |a.lowDurationsUs|;
    assert |multiset(a.highDurationsUs)| + |multiset(a.lowDurationsUs)| == |multiset(a.durationsUs)|;
  }

  /** Every element of `s[k::2]` sits at a position of parity k. */
  lemma StridePositions(s: seq<real>, k: nat)
    requires k <= 1
    ensures forall j :: 0 <= j < |Stride(s, k)| ==>
      k + 2 * j < |s| && Stride(s, k)[j] == s[k + 2 * j] && (k + 2 * j) % 2 == k
  {
    StrideAt(s, k);
  }

  /** HIGH takes the intervals at the HIGH parity, LOW those at the other parity,
      each in order. */
  lemma AnalyzeTimingLevels(c: Capture)
    requires |c.times| >= 2
    ensures var a := AnalyzeTiming(c).analysis;
      && LevelIntervals(a.highDurationsUs, a.durationsUs, c.initialState, true)
      && LevelIntervals(a.lowDurationsUs, a.durationsUs, c.initialState, false)
  {
    var a := AnalyzeTiming(c).analysis;
    var k := HighParity(c.initialState);
    assert a.highDurationsUs == Stride(a.durationsUs, k);
    assert a.lowDurationsUs == Stride(a.durationsUs, 1 - k);
    StrideLevel(a.durationsUs, c.initialState, true);
    StrideLevel(a.durationsUs, c.initialState, false);
  }

  /** `level` lists, in order, exactly the intervals of `durations` at the positions
      that are HIGH (`high`) or LOW (not `high`) for the given initial state: it has
      one element per such position, and its j-th element is the j-th such interval. */
  ghost predicate LevelIntervals(level: seq<real>, durations: seq<real>, initialState: int, high: bool) {
    var k := if high then HighParity(initialState) else 1 - HighParity(initialState);
    && |level| == (if k >= |durations| then 0 else (|durations| - k + 1) / 2)
    && (forall j :: 0 <= j < |level| ==>
          k + 2 * j < |durations| && level[j] == durations[k + 2 * j]
          && IsHighInterval(initialState, k + 2 * j) == high)
  }

  /** No interval of the level is missing: interval i of the right level is element
      i / 2 of the list. */
  lemma LevelIntervalsCover(level: seq<real>, durations: seq<real>, initialState: int, high: bool)
    requires LevelIntervals(level, durations, initialState, high)
    ensures forall i :: 0 <= i < |durations| && IsHighInterval(initialState, i) == high ==>
      i / 2 < |level| && level[i / 2] == durations[i]
  {
    var k := if high then HighParity(initialState) else 1 - HighParity(initialState);
    forall i | 0 <= i < |durations| && IsHighInterval(initialState, i) == high
      ensures i / 2 < |level| && level[i / 2] == durations[i]
    {
      assert i % 2 == k;
      assert i == k + 2 * (i / 2);
    }
  }

  lemma StrideLevel(s: seq<real>, initialState: int, high: bool)
    ensures LevelIntervals(Stride(s, if high then HighParity(initialState) else 1 - HighParity(initialState)), s, initialState, high)
  {
    var k := if high then HighParity(initialState) else 1 - HighParity(initialState);
    StrideAt(s, k);
    StridePositions(s, k);
  }

  /** Each level's summary: an empty level reports zeros, otherwise its min and max
      are that level's extreme intervals and its mean their average. The overall
      summary does the same for all intervals, and its mean is the signal duration
      in µs divided by the number of intervals. */
  lemma AnalyzeTimingSummaries(c: Capture)
    requires |c.times| >= 2
    ensures var a := AnalyzeTiming(c).analysis;
      && AllSummarized(a.all, a.durationsUs)
      && a.all.meanUs == (c.times[|c.times| - 1] - c.times[0]) * MicrosPerSecond / ((|c.times| - 1) as real)
      && LevelSummarized(a.high, a.highDurationsUs)
      && LevelSummarized(a.low, a.lowDurationsUs)
  {
    var a := AnalyzeTiming(c).analysis;
    var d := DurationsUs(c.times);
    assert a.durationsUs == d && a.all == Summarize(d);
    SummarizeFacts(d);
    AllMean(c);
    SummarizeLevelFacts(a.highDurationsUs);
    SummarizeLevelFacts(a.lowDurationsUs);
  }

  /** The mean of all intervals is the signal duration over their number. */
  lemma AllMean(c: Capture)
    requires |c.times| >= 2
    ensures AnalyzeTiming(c).analysis.all.meanUs
      == (c.times[|c.times| - 1] - c.times[0]) * MicrosPerSecond / ((|c.times| - 1) as real)
  {
    var d := DurationsUs(c.times);
    assert AnalyzeTiming(c).analysis.all.meanUs == Sum(d) / (|d| as real);
    DurationsUsSum(c.times);
  }

  /** What the overall summary says about the intervals. */
  ghost predicate AllSummarized(sm: Summary, s: seq<real>) {
    && sm.minUs in s && sm.maxUs in s
    && (forall d :: d in s ==> sm.minUs <= d <= sm.maxUs)
    && sm.minUs <= sm.meanUs <= sm.maxUs
    && sm.meanUs == Sum(s) / (|s| as real)
  }

  lemma SummarizeFacts(s: seq<real>)
    requires s != []
    ensures AllSummarized(Summarize(s), s)
  {
    MeanBetweenMinMax(s);
  }

  lemma SummarizeLevelFacts(s: seq<real>)
    ensures LevelSummarized(SummarizeLevel(s), s)
  {
    if s != [] {
      MeanBetweenMinMax(s);
    }
  }

  /** What a level summary says about the level's intervals. */
  ghost predicate LevelSummarized(l: LevelSummary, s: seq<real>) {
    && l.count == |s|
    && (s == [] ==> l.minUs == 0.0 && l.maxUs == 0.0 && l.meanUs == 0.0)
    && (s != [] ==>
          l.minUs in s && l.maxUs in s
          && (forall d :: d in s ==> l.minUs <= d <= l.maxUs)
          && l.minUs <= l.meanUs <= l.maxUs
          && l.meanUs == Sum(s) / (|s| as real))
  }

  /** Strictly increasing timestamps give positive durations at both levels. */
  lemma AnalyzeTimingPositive(c: Capture)
    requires |c.times| >= 2 && StrictlyIncreasing(c.times)
    ensures var a := AnalyzeTiming(c).analysis;
      Positive(a.durationsUs) && Positive(a.highDurationsUs) && Positive(a.lowDurationsUs)
  {
    var a := AnalyzeTiming(c).analysis;
    DurationsUsPositive(c.times);
    var k := HighParity(c.initialState);
    assert a.highDurationsUs == Stride(a.durationsUs, k);
    assert a.lowDurationsUs == Stride(a.durationsUs, 1 - k);
    StridePositive(a.durationsUs, k);
    StridePositive(a.durationsUs, 1 - k);
  }

  lemma StridePositive(s: seq<real>, k: nat)
    requires Positive(s)
    ensures Positive(Stride(s, k))
  {
    StrideAt(s, k);
  }
}
