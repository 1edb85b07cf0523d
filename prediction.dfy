/**
 * The prediction engine (src-tauri/src/prediction.rs): forecasts of the next
 * period, the fertility window and summary statistics, all computed from the
 * closed cycles. `f64`/`f32` quantities are exact reals here; the square
 * root inside the standard deviation is the parameter `sqrt`.
 */
module Prediction {
  import opened Wrappers
  import opened Models
  import opened Collections

  /** At most this many of the latest closed cycles feed a forecast. */
  const WINDOW: nat := 6
  /** Ovulation is taken to fall this many days before the next period. */
  const LUTEAL_DAYS: int := 14
  /** The fertile window opens this many days before ovulation. */
  const FERTILE_LEAD: int := 5
  /** Peak fertility opens this many days before ovulation. */
  const PEAK_LEAD: int := 2
  /** Average period length used when no period length is known. */
  const DEFAULT_PERIOD: real := 5.0

  function Max(a: int, b: int): int { if a < b then b else a }

  function Abs(x: int): nat { if x < 0 then -x else x }

  /** A cycle with an end date. */
  predicate Closed(c: Cycle) {
    c.endDate.Some?
  }

  /** `cycles.iter().filter(|c| c.end_date.is_some())`, order kept. */
  function Completed(cycles: seq<Cycle>): (r: seq<Cycle>)
    ensures forall i :: 0 <= i < |r| ==> r[i].endDate.Some?
    ensures |r| <= |cycles|
    ensures forall c :: multiset(r)[c] == if c.endDate.Some? then multiset(cycles)[c] else 0
  {
    FilterCount(cycles, Closed);
    var r := Filter(cycles, Closed);
    assert forall i :: 0 <= i < |r| ==> r[i] in r;
    r
  }

  /** The filter keeps exactly the cycles that have an end. */
  lemma CompletedMembers(cycles: seq<Cycle>)
    ensures forall c :: c in Completed(cycles) <==> c in cycles && c.endDate.Some?
  {
  }

  predicate SortedByStart(cs: seq<Cycle>) {
    forall i, j :: 0 <= i < j < |cs| ==> cs[i].startDate <= cs[j].startDate
  }

  /** Places `c` after every element whose start is not later than its own. */
  function InsertByStart(sorted: seq<Cycle>, c: Cycle): (r: seq<Cycle>)
    requires SortedByStart(sorted)
    ensures SortedByStart(r)
    ensures multiset(r) == multiset(sorted) + multiset{c}
    ensures |r| == |sorted| + 1
  {
    if sorted == [] || sorted[|sorted| - 1].startDate <= c.startDate then
      sorted + [c]
    else
      var init, last := sorted[..|sorted| - 1], sorted[|sorted| - 1];
      assert sorted == init + [last];
      var front := InsertByStart(init, c);
      forall i | 0 <= i < |front| ensures front[i].startDate <= last.startDate {
        assert front[i] in multiset(front);
        assert front[i] == c || front[i] in multiset(init);
      }
      front + [last]
  }

  /**
   * `r` is `sorted` with `c` placed at position `i`: after every element
   * whose start is not later than its own, before every element that
   * starts later.
   */
  predicate InsertedAt(sorted: seq<Cycle>, c: Cycle, r: seq<Cycle>, i: int) {
    && 0 <= i <= |sorted|
    && r == sorted[..i] + [c] + sorted[i..]
    && (forall j :: 0 <= j < i ==> sorted[j].startDate <= c.startDate)
    && (forall j :: i <= j < |sorted| ==> c.startDate < sorted[j].startDate)
  }

  /** Appending a later-starting cycle to both sides keeps the insertion point. */
  lemma InsertedAtExtend(init: seq<Cycle>, last: Cycle, c: Cycle, front: seq<Cycle>, i: int)
    requires InsertedAt(init, c, front, i)
    requires c.startDate < last.startDate
    ensures InsertedAt(init + [last], c, front + [last], i)
  {
    var sorted := init + [last];
    assert sorted[..i] == init[..i];
    assert sorted[i..] == init[i..] + [last];
    forall j | 0 <= j < i ensures sorted[j].startDate <= c.startDate {
      assert sorted[j] == init[j];
    }
    forall j | i <= j < |sorted| ensures c.startDate < sorted[j].startDate {
      if j < |init| {
        assert sorted[j] == init[j];
      }
    }
  }

  /** Insertion is stable: `c` goes after the elements that do not start later than it. */
  lemma {:induction false} InsertByStartStable(sorted: seq<Cycle>, c: Cycle)
    requires SortedByStart(sorted)
    ensures exists i :: InsertedAt(sorted, c, InsertByStart(sorted, c), i)
  {
    if sorted == [] || sorted[|sorted| - 1].startDate <= c.startDate {
      var i := |sorted|;
      assert sorted[..i] == sorted && sorted[i..] == [];
      forall j | 0 <= j < i ensures sorted[j].startDate <= c.startDate {
        assert j == i - 1 || sorted[j].startDate <= sorted[i - 1].startDate;
      }
      assert InsertedAt(sorted, c, InsertByStart(sorted, c), i);
    } else {
      var init, last := sorted[..|sorted| - 1], sorted[|sorted| - 1];
      assert sorted == init + [last];
      assert SortedByStart(init);
      InsertByStartStable(init, c);
      var front := InsertByStart(init, c);
      var i :| InsertedAt(init, c, front, i);
      InsertedAtExtend(init, last, c, front, i);
      assert InsertByStart(sorted, c) == front + [last];
    }
  }

  /** `sort_by_key(|c| c.start_date)`: a stable sort, here by insertion (see InsertByStartStable). */
  function SortByStart(cs: seq<Cycle>): (r: seq<Cycle>)
    ensures SortedByStart(r)
    ensures multiset(r) == multiset(cs)
    ensures |r| == |cs|
  {
    if cs == [] then []
    else
      assert cs == cs[..|cs| - 1] + [cs[|cs| - 1]];
      InsertByStart(SortByStart(cs[..|cs| - 1]), cs[|cs| - 1])
  }

  /** The closed cycles, oldest start first. */
  function SortedCompleted(cycles: seq<Cycle>): (r: seq<Cycle>)
    ensures SortedByStart(r)
    ensures |r| == |Completed(cycles)|
    ensures forall i :: 0 <= i < |r| ==> r[i].endDate.Some?
  {
    var r := SortByStart(Completed(cycles));
    forall i | 0 <= i < |r| ensures r[i].endDate.Some? {
      assert r[i] in multiset(Completed(cycles));
    }
    r
  }

  /** Sorting keeps exactly the cycles that have an end. */
  lemma SortedCompletedMembers(cycles: seq<Cycle>)
    ensures forall c :: c in SortedCompleted(cycles) <==> c in cycles && c.endDate.Some?
  {
    CompletedMembers(cycles);
    assert forall c :: c in SortedCompleted(cycles) <==> c in multiset(Completed(cycles));
  }

  function Reverse<T>(s: seq<T>): (r: seq<T>)
    ensures |r| == |s|
    ensures forall i :: 0 <= i < |s| ==> r[i] == s[|s| - 1 - i]
  {
    if s == [] then [] else Reverse(s[1..]) + [s[0]]
  }

  /** `completed.iter().rev().take(6)`: the latest cycles, newest first. */
  function Recent(sorted: seq<Cycle>): (r: seq<Cycle>)
    ensures |r| == if |sorted| < WINDOW then |sorted| else WINDOW
    ensures forall i :: 0 <= i < |r| ==> r[i] == sorted[|sorted| - 1 - i]
  {
    var rev := Reverse(sorted);
    if |rev| < WINDOW then rev else rev[..WINDOW]
  }

  /** `recent.windows(2)` mapped to `|w[0].start - w[1].start|`. */
  function RecentGaps(recent: seq<Cycle>): (r: seq<int>)
    ensures |r| == if |recent| < 2 then 0 else |recent| - 1
    ensures forall i :: 0 <= i < |r| ==> r[i] == Abs(recent[i].startDate - recent[i + 1].startDate)
    ensures AllNonNegative(r)
  {
    if |recent| < 2 then []
    else [Abs(recent[0].startDate - recent[1].startDate)] + RecentGaps(recent[1..])
  }

  /** `completed.windows(2)` mapped to `w[1].start - w[0].start`. */
  function ForwardGaps(cs: seq<Cycle>): (r: seq<int>)
    ensures |r| == if |cs| < 2 then 0 else |cs| - 1
    ensures forall i :: 0 <= i < |r| ==> r[i] == cs[i + 1].startDate - cs[i].startDate
    ensures SortedByStart(cs) ==> AllNonNegative(r)
  {
    if |cs| < 2 then []
    else [cs[1].startDate - cs[0].startDate] + ForwardGaps(cs[1..])
  }

  /** Inclusive period lengths `(end - start) + 1` of the cycles that have an end. */
  function PeriodLengths(cs: seq<Cycle>): (r: seq<int>)
    ensures |r| <= |cs|
    ensures (forall i :: 0 <= i < |cs| ==> cs[i].endDate.Some?) ==>
      |r| == |cs| && forall i :: 0 <= i < |cs| ==> r[i] == cs[i].endDate.value - cs[i].startDate + 1
  {
    if cs == [] then []
    else
      var rest := PeriodLengths(cs[1..]);
      if cs[0].endDate.Some? then [cs[0].endDate.value - cs[0].startDate + 1] + rest else rest
  }

  function Sum(xs: seq<int>): int {
    if xs == [] then 0 else xs[0] + Sum(xs[1..])
  }

  /** `mean`: 0 for no values, otherwise the arithmetic mean. */
  function Mean(xs: seq<int>): (m: real)
    ensures xs == [] ==> m == 0.0
    ensures xs != [] ==> m * |xs| as real == Sum(xs) as real
  {
    if xs == [] then 0.0 else Sum(xs) as real / |xs| as real
  }

  /** The sum of squared deviations from `avg`. */
  function SquaredDeviations(xs: seq<int>, avg: real): (r: real)
    ensures r >= 0.0
  {
    if xs == [] then 0.0 else (xs[0] as real - avg) * (xs[0] as real - avg) + SquaredDeviations(xs[1..], avg)
  }

  /** The sample variance: squared deviations from the mean over n - 1. */
  function SampleVariance(xs: seq<int>): (v: real)
    requires |xs| >= 2
    ensures v >= 0.0
    ensures v * (|xs| - 1) as real == SquaredDeviations(xs, Mean(xs))
  {
    SquaredDeviations(xs, Mean(xs)) / (|xs| - 1) as real
  }

  /** `std_deviation`: the square root of the sample variance, 0 below two values. */
  function StdDeviation(xs: seq<int>, sqrt: real -> real): (r: real)
    ensures |xs| < 2 ==> r == 0.0
    ensures |xs| >= 2 ==> r == sqrt(SampleVariance(xs))
  {
    if |xs| < 2 then 0.0
    else sqrt(SampleVariance(xs))
  }

  /** `f64::round`: to the nearest integer, halves away from zero. */
  function Round(x: real): (r: int)
    ensures -0.5 <= x - r as real <= 0.5
    ensures x - r as real == 0.5 ==> x < 0.0
    ensures x - r as real == -0.5 ==> x > 0.0
  {
    if x >= 0.0 then (x + 0.5).Floor else -((0.5 - x).Floor)
  }

  function Clamp(x: real, lo: real, hi: real): (r: real)
    requires lo <= hi
    ensures lo <= r <= hi
    ensures lo <= x <= hi ==> r == x
    ensures x < lo ==> r == lo
    ensures x > hi ==> r == hi
  {
    if x < lo then lo else if x > hi then hi else x
  }

  /** `PredictionInternals`. */
  datatype Internals = Internals(avgCycle: real, avgPeriod: real, cycleLengths: seq<int>, lastStart: Date)

  /** `calc_internals`. */
  function CalcInternals(cycles: seq<Cycle>): (r: Option<Internals>)
    ensures r.None? <==> |Completed(cycles)| < 2
    ensures r.Some? ==>
      var n := |Completed(cycles)|;
      && |r.value.cycleLengths| == (if n < WINDOW then n else WINDOW) - 1
      && AllNonNegative(r.value.cycleLengths)
      && r.value.avgCycle == Mean(r.value.cycleLengths)
  {
    var completed := Completed(cycles);
    if |completed| < 2 then Option.None
    else
      var sorted := SortByStart(completed);
      var recent := Recent(sorted);
      var cycleLengths := RecentGaps(recent);
      if |cycleLengths| == 0 then Option.None
      else
        var periodLengths := PeriodLengths(recent);
        var avgCycle := Mean(cycleLengths);
        var avgPeriod := if |periodLengths| == 0 then DEFAULT_PERIOD else Mean(periodLengths);
        Some(Internals(avgCycle, avgPeriod, cycleLengths, sorted[|sorted| - 1].startDate))
  }

  /** The last of the sorted closed cycles has the latest start. */
  lemma LatestStart(cycles: seq<Cycle>)
    requires |Completed(cycles)| > 0
    ensures var sorted := SortByStart(Completed(cycles));
      && sorted[|sorted| - 1] in cycles && sorted[|sorted| - 1].endDate.Some?
      && forall c :: c in cycles && c.endDate.Some? ==> c.startDate <= sorted[|sorted| - 1].startDate
  {
    var sorted := SortByStart(Completed(cycles));
    assert sorted == SortedCompleted(cycles);
    SortedCompletedMembers(cycles);
    forall c | c in cycles && c.endDate.Some? ensures c.startDate <= sorted[|sorted| - 1].startDate {
      var i :| 0 <= i < |sorted| && sorted[i] == c;
      assert i == |sorted| - 1 || sorted[i].startDate <= sorted[|sorted| - 1].startDate;
    }
  }

  /**
   * The confidence of a forecast: 0.5 from a single gap, otherwise one minus
   * the coefficient of variation of the gaps, clamped to [0.1, 0.95]. A zero
   * average makes the ratio 0/0 (NaN, which the clamp keeps) or a signed
   * infinity (clamped to a bound).
   */
  function ConfidenceOf(lengths: seq<int>, avg: real, sqrt: real -> real): (r: Confidence)
    ensures |lengths| < 2 ==> r == Finite(0.5)
    ensures r.Finite? ==> 0.1 <= r.value <= 0.95
    ensures r.NaN? ==> avg == 0.0 && |lengths| >= 2
  {
    if |lengths| < 2 then Finite(0.5)
    else
      var sd := StdDeviation(lengths, sqrt);
      if avg == 0.0 then
        if sd == 0.0 then NaN
        else if sd > 0.0 then Finite(0.1)
        else Finite(0.95)
      else Finite(Clamp(1.0 - sd / avg, 0.1, 0.95))
  }

  /** The forecast made from `calc_internals`' figures. */
  function Forecast(st: Internals, sqrt: real -> real): (p: Prediction)
    ensures p.predictedStart <= p.predictedEnd
    ensures |st.cycleLengths| < 2 ==> p.confidence == Finite(0.5)
    ensures p.confidence.Finite? ==> 0.1 <= p.confidence.value <= 0.95
  {
    var predictedStart := st.lastStart + Round(st.avgCycle);
    var predictedEnd := predictedStart + Max(0, Round(st.avgPeriod) - 1);
    Prediction(predictedStart, predictedEnd, ConfidenceOf(st.cycleLengths, st.avgCycle, sqrt))
  }

  /** `predict`: the next period, from at least two closed cycles. */
  function Predict(cycles: seq<Cycle>, sqrt: real -> real): (r: Option<Prediction>)
    ensures r.None? <==> |Completed(cycles)| < 2
    ensures r.Some? ==> r.value.predictedStart <= r.value.predictedEnd
    ensures r.Some? && |Completed(cycles)| == 2 ==> r.value.confidence == Finite(0.5)
    ensures r.Some? && r.value.confidence.Finite? ==> 0.1 <= r.value.confidence.value <= 0.95
  {
    match CalcInternals(cycles)
    case None => Option.None
    case Some(st) => Some(Forecast(st, sqrt))
  }

  predicate AllNonNegative(xs: seq<int>) {
    forall i :: 0 <= i < |xs| ==> xs[i] >= 0
  }

  lemma {:induction false} NonNegativeSum(xs: seq<int>)
    requires AllNonNegative(xs)
    ensures Sum(xs) >= 0
    ensures Sum(xs) == 0 ==> forall i :: 0 <= i < |xs| ==> xs[i] == 0
  {
    if xs != [] {
      NonNegativeSum(xs[1..]);
      if Sum(xs) == 0 {
        forall i | 0 <= i < |xs| ensures xs[i] == 0 {
          if i > 0 { assert xs[i] == xs[1..][i - 1]; }
        }
      }
    }
  }

  lemma NonNegativeMean(xs: seq<int>)
    requires AllNonNegative(xs)
    ensures Mean(xs) >= 0.0
  {
    NonNegativeSum(xs);
  }

  /** `fertility_window`: ovulation 14 days before the predicted period. */
  function Fertility(cycles: seq<Cycle>, sqrt: real -> real): (r: Option<FertilityWindow>)
    ensures r.None? <==> Predict(cycles, sqrt).None?
    ensures r.Some? ==>
      var w := r.value;
      && w.ovulationDay + LUTEAL_DAYS == Predict(cycles, sqrt).value.predictedStart
      && w.fertileEnd == w.peakEnd == w.ovulationDay
      && w.fertileStart + FERTILE_LEAD == w.ovulationDay
      && w.peakStart + PEAK_LEAD == w.ovulationDay
      && w.fertileStart < w.peakStart < w.ovulationDay
  {
    match Predict(cycles, sqrt)
    case None => Option.None
    case Some(p) =>
      var ovulation := p.predictedStart - LUTEAL_DAYS;
      Some(FertilityWindow(ovulation - FERTILE_LEAD, ovulation, ovulation, ovulation - PEAK_LEAD, ovulation))
  }

  /** `Iterator::min`. */
  function Minimum(xs: seq<int>): (r: Option<int>)
    ensures r.None? <==> xs == []
    ensures r.Some? ==> r.value in xs && forall x :: x in xs ==> r.value <= x
  {
    if xs == [] then Option.None
    else
      assert forall x :: x in xs <==> x == xs[0] || x in xs[1..];
      match Minimum(xs[1..])
      case None => Some(xs[0])
      case Some(m) => Some(if xs[0] <= m then xs[0] else m)
  }

  /** `Iterator::max`. */
  function Maximum(xs: seq<int>): (r: Option<int>)
    ensures r.None? <==> xs == []
    ensures r.Some? ==> r.value in xs && forall x :: x in xs ==> x <= r.value
  {
    if xs == [] then Option.None
    else
      assert forall x :: x in xs <==> x == xs[0] || x in xs[1..];
      match Maximum(xs[1..])
      case None => Some(xs[0])
      case Some(m) => Some(if m < xs[0] then xs[0] else m)
  }

  /** `cycle_stats`: summary figures over all closed cycles. */
  function Stats(cycles: seq<Cycle>): (r: CycleStats)
    ensures r.totalCycles == |Completed(cycles)|
    ensures r.totalCycles == 0 ==>
      r == CycleStats(0, Option.None, Option.None, Option.None, Option.None, Option.None, Option.None)
    ensures r.totalCycles > 0 ==>
      r.avgPeriodLength.Some? && r.lastPeriodStart.Some? && r.lastPeriodEnd.Some?
    ensures r.avgCycleLength.Some? <==> r.totalCycles >= 2
    ensures r.shortestCycle.Some? <==> r.totalCycles >= 2
    ensures r.longestCycle.Some? <==> r.totalCycles >= 2
    ensures r.shortestCycle.Some? ==> 0 <= r.shortestCycle.value <= r.longestCycle.value
  {
    var completed := SortedCompleted(cycles);
    if |completed| == 0 then
      CycleStats(0, Option.None, Option.None, Option.None, Option.None, Option.None, Option.None)
    else
      var periodLengths := PeriodLengths(completed);
      var cycleLengths := ForwardGaps(completed);
      var last := completed[|completed| - 1];
      assert |cycleLengths| > 0 ==> cycleLengths[0] in cycleLengths && AllNonNegative(cycleLengths);
      CycleStats(
        |completed|,
        if |cycleLengths| == 0 then Option.None else Some(Mean(cycleLengths)),
        if |periodLengths| == 0 then Option.None else Some(Mean(periodLengths)),
        Minimum(cycleLengths),
        Maximum(cycleLengths),
        Some(last.startDate),
        last.endDate)
  }

  /** `calc_internals` on two or more closed cycles, in terms of the window. */
  lemma InternalsOfWindow(cycles: seq<Cycle>)
    requires |Completed(cycles)| >= 2
    ensures
      var sorted := SortedCompleted(cycles);
      var recent := Recent(sorted);
      CalcInternals(cycles) == Some(Internals(
        Mean(RecentGaps(recent)), Mean(PeriodLengths(recent)),
        RecentGaps(recent), sorted[|sorted| - 1].startDate))
  {
    var sorted := SortedCompleted(cycles);
    assert sorted == SortByStart(Completed(cycles));
    var recent := Recent(sorted);
    assert |PeriodLengths(recent)| == |recent|;
  }

  /** `predict` in terms of `calc_internals`. */
  lemma PredictOfInternals(cycles: seq<Cycle>, sqrt: real -> real)
    requires |Completed(cycles)| >= 2
    ensures
      var st := CalcInternals(cycles).value;
      var p := Predict(cycles, sqrt).value;
      && p.predictedStart == st.lastStart + Round(st.avgCycle)
      && p.predictedEnd == p.predictedStart + Max(0, Round(st.avgPeriod) - 1)
      && p.confidence == ConfidenceOf(st.cycleLengths, st.avgCycle, sqrt)
  {
    assert Predict(cycles, sqrt) == Some(Forecast(CalcInternals(cycles).value, sqrt));
  }

  /** `predict` on two or more closed cycles, in terms of the window. */
  lemma PredictOfWindow(cycles: seq<Cycle>, sqrt: real -> real)
    requires |Completed(cycles)| >= 2
    ensures
      var sorted := SortedCompleted(cycles);
      var recent := Recent(sorted);
      var gaps := RecentGaps(recent);
      var p := Predict(cycles, sqrt).value;
      && p.predictedStart == sorted[|sorted| - 1].startDate + Round(Mean(gaps))
      && p.predictedEnd == p.predictedStart + Max(0, Round(Mean(PeriodLengths(recent))) - 1)
      && p.confidence == ConfidenceOf(gaps, Mean(gaps), sqrt)
  {
    PredictOfInternals(cycles, sqrt);
    InternalsOfWindow(cycles);
  }

  /** Newest first: the window's starts never increase. */
  predicate StartsDescending(recent: seq<Cycle>) {
    forall i :: 0 <= i < |recent| - 1 ==> recent[i].startDate >= recent[i + 1].startDate
  }

  /** The absolute gaps of a newest-first window add up to its span. */
  lemma {:induction false} RecentGapSum(recent: seq<Cycle>)
    requires |recent| >= 1
    requires StartsDescending(recent)
    ensures Sum(RecentGaps(recent)) == recent[0].startDate - recent[|recent| - 1].startDate
  {
    if |recent| >= 2 {
      RecentGapSum(recent[1..]);
    }
  }

  /** Days from the first start to the last. */
  function Span(cs: seq<Cycle>): int
    requires |cs| >= 1
  {
    cs[|cs| - 1].startDate - cs[0].startDate
  }

  /** The forward gaps of any sequence of cycles add up to last start minus first start. */
  lemma {:induction false} ForwardGapSum(cs: seq<Cycle>)
    requires |cs| >= 1
    ensures Sum(ForwardGaps(cs)) == Span(cs)
  {
    if |cs| >= 2 {
      ForwardGapSum(cs[1..]);
    }
  }

  /** Taking the reversed tail of a sorted sequence gives a newest-first window. */
  lemma RecentDescending(sorted: seq<Cycle>)
    requires SortedByStart(sorted)
    ensures StartsDescending(Recent(sorted))
  {
  }

  /**
   * The days from the oldest to the newest start of the window (the at most
   * 6 latest of the sorted cycles), over the number of gaps between them.
   */
  function SpanPerGap(sorted: seq<Cycle>): real
    requires |sorted| >= 2
  {
    var n := |sorted|;
    var k := if n < WINDOW then n else WINDOW;
    (sorted[n - 1].startDate - sorted[n - k].startDate) as real / (k - 1) as real
  }

  /**
   * The forecast start is the latest closed start plus the window's span
   * over its number of gaps, rounded.
   */
  lemma PredictedStartFromSpan(cycles: seq<Cycle>, sqrt: real -> real)
    requires |Completed(cycles)| >= 2
    ensures
      var sorted := SortedCompleted(cycles);
      Predict(cycles, sqrt).value.predictedStart == sorted[|sorted| - 1].startDate + Round(SpanPerGap(sorted))
  {
    PredictedStartOfInternals(cycles, sqrt);
    AverageCycleOfWindow(cycles);
  }

  /** `calc_internals`' average gap is the window's span over its number of gaps. */
  lemma AverageCycleOfWindow(cycles: seq<Cycle>)
    requires |Completed(cycles)| >= 2
    ensures
      var sorted := SortedCompleted(cycles);
      && CalcInternals(cycles).value.lastStart == sorted[|sorted| - 1].startDate
      && CalcInternals(cycles).value.avgCycle == SpanPerGap(sorted)
  {
    InternalsOfWindow(cycles);
    WindowMeanGap(SortedCompleted(cycles));
  }

  lemma PredictedStartOfInternals(cycles: seq<Cycle>, sqrt: real -> real)
    requires |Completed(cycles)| >= 2
    ensures Predict(cycles, sqrt).value.predictedStart
      == CalcInternals(cycles).value.lastStart + Round(CalcInternals(cycles).value.avgCycle)
  {
  }

  /** The window's mean gap is its span over its number of gaps. */
  lemma WindowMeanGap(sorted: seq<Cycle>)
    requires SortedByStart(sorted) && |sorted| >= 2
    ensures Mean(RecentGaps(Recent(sorted))) == SpanPerGap(sorted)
  {
    var recent := Recent(sorted);
    RecentDescending(sorted);
    RecentGapSum(recent);
  }

  /**
   * The predicted period lasts the rounded average period length of the
   * window (at least one day), each length counting both end days.
   */
  lemma PredictedLengthFromWindow(cycles: seq<Cycle>, sqrt: real -> real)
    requires |Completed(cycles)| >= 2
    ensures
      var recent := Recent(SortedCompleted(cycles));
      var lengths := PeriodLengths(recent);
      var p := Predict(cycles, sqrt).value;
      && |lengths| == |recent|
      && (forall i :: 0 <= i < |recent| ==> lengths[i] == recent[i].endDate.value - recent[i].startDate + 1)
      && p.predictedEnd - p.predictedStart == Max(0, Round(Mean(lengths)) - 1)
  {
    var sorted := SortedCompleted(cycles);
    var recent := Recent(sorted);
    assert forall i :: 0 <= i < |recent| ==> recent[i].endDate.Some?;
    PredictedEndOfInternals(cycles, sqrt);
    AveragePeriodOfWindow(cycles);
  }

  lemma PredictedEndOfInternals(cycles: seq<Cycle>, sqrt: real -> real)
    requires |Completed(cycles)| >= 2
    ensures
      var p := Predict(cycles, sqrt).value;
      p.predictedEnd - p.predictedStart == Max(0, Round(CalcInternals(cycles).value.avgPeriod) - 1)
  {
  }

  lemma AveragePeriodOfWindow(cycles: seq<Cycle>)
    requires |Completed(cycles)| >= 2
    ensures CalcInternals(cycles).value.avgPeriod == Mean(PeriodLengths(Recent(SortedCompleted(cycles))))
  {
    InternalsOfWindow(cycles);
  }

  /** Every cycle of the window starts on the day of the latest one. */
  predicate WindowStartsRepeat(sorted: seq<Cycle>)
    requires |sorted| >= 1
  {
    var n := |sorted|;
    var k := if n < WINDOW then n else WINDOW;
    forall i :: n - k <= i < n ==> sorted[i].startDate == sorted[n - 1].startDate
  }

  /** A zero average gap means that every cycle of the window starts on the same day. */
  lemma ZeroMeanGapRepeats(sorted: seq<Cycle>)
    requires SortedByStart(sorted) && |sorted| >= 2
    requires Mean(RecentGaps(Recent(sorted))) == 0.0
    ensures WindowStartsRepeat(sorted)
  {
    var n := |sorted|;
    var k := if n < WINDOW then n else WINDOW;
    var recent := Recent(sorted);
    var gaps := RecentGaps(recent);
    assert Sum(gaps) == sorted[n - 1].startDate - sorted[n - k].startDate by {
      RecentDescending(sorted);
      RecentGapSum(recent);
    }
    assert Sum(gaps) as real == Mean(gaps) * |gaps| as real;
    forall i | n - k <= i < n ensures sorted[i].startDate == sorted[n - 1].startDate {
      assert sorted[n - k].startDate <= sorted[i].startDate <= sorted[n - 1].startDate;
    }
  }

  /** A window whose cycles all start on the same day has only zero gaps. */
  lemma RepeatedStartsZeroGaps(sorted: seq<Cycle>)
    requires |sorted| >= 1 && WindowStartsRepeat(sorted)
    ensures forall i :: 0 <= i < |RecentGaps(Recent(sorted))| ==> RecentGaps(Recent(sorted))[i] == 0
  {
    var n := |sorted|;
    var recent := Recent(sorted);
    var gaps := RecentGaps(recent);
    forall i | 0 <= i < |gaps| ensures gaps[i] == 0 {
      assert recent[i] == sorted[n - 1 - i] && recent[i + 1] == sorted[n - 2 - i];
    }
  }

  /**
   * The confidence is NaN only when every cycle of the window starts on the
   * same day; with a real square root (0 for 0) and at least three cycles in
   * the window, that is also sufficient.
   */
  lemma NaNConfidenceIffRepeatedStart(cycles: seq<Cycle>, sqrt: real -> real)
    requires |Completed(cycles)| >= 2
    ensures
      var sorted := SortedCompleted(cycles);
      var n := |sorted|;
      var k := if n < WINDOW then n else WINDOW;
      && (Predict(cycles, sqrt).value.confidence.NaN? ==> WindowStartsRepeat(sorted))
      && (WindowStartsRepeat(sorted) && k >= 3 && sqrt(0.0) == 0.0 ==> Predict(cycles, sqrt).value.confidence.NaN?)
  {
    var sorted := SortedCompleted(cycles);
    var n := |sorted|;
    var k := if n < WINDOW then n else WINDOW;
    var gaps := RecentGaps(Recent(sorted));
    var conf := Predict(cycles, sqrt).value.confidence;
    assert conf == ConfidenceOf(gaps, Mean(gaps), sqrt) by {
      PredictOfWindow(cycles, sqrt);
    }
    if conf.NaN? {
      ZeroMeanGapRepeats(sorted);
    }
    if WindowStartsRepeat(sorted) && k >= 3 && sqrt(0.0) == 0.0 {
      RepeatedStartsZeroGaps(sorted);
      ZeroGapsNaN(gaps, sqrt);
    }
  }

  /** Two or more zero gaps give a zero mean and a zero deviation, hence 0/0. */
  lemma ZeroGapsNaN(xs: seq<int>, sqrt: real -> real)
    requires |xs| >= 2 && forall i :: 0 <= i < |xs| ==> xs[i] == 0
    requires sqrt(0.0) == 0.0
    ensures ConfidenceOf(xs, Mean(xs), sqrt) == NaN
  {
    ZeroDeviations(xs);
    var variance := SquaredDeviations(xs, Mean(xs)) / (|xs| - 1) as real;
    assert variance == 0.0;
    assert StdDeviation(xs, sqrt) == sqrt(variance);
  }

  lemma {:induction false} ZeroDeviations(xs: seq<int>)
    requires forall i :: 0 <= i < |xs| ==> xs[i] == 0
    ensures Sum(xs) == 0
    ensures SquaredDeviations(xs, 0.0) == 0.0
  {
    if xs != [] {
      ZeroDeviations(xs[1..]);
    }
  }

  /** The forecast never lies before the start of any closed cycle. */
  lemma PredictedAfterEveryStart(cycles: seq<Cycle>, sqrt: real -> real)
    requires |Completed(cycles)| >= 2
    ensures forall c :: c in cycles && c.endDate.Some? ==>
      c.startDate <= Predict(cycles, sqrt).value.predictedStart
  {
    var st := CalcInternals(cycles).value;
    var start := Predict(cycles, sqrt).value.predictedStart;
    PredictedStartOfInternals(cycles, sqrt);
    NonNegativeMean(st.cycleLengths);
    assert start >= st.lastStart;
    InternalsOfWindow(cycles);
    LatestStart(cycles);
    assert st.lastStart == SortByStart(Completed(cycles))[|Completed(cycles)| - 1].startDate;
  }

  lemma CompletedAppend(cycles: seq<Cycle>, c: Cycle)
    requires c.endDate.Some?
    ensures Completed(cycles + [c]) == Completed(cycles) + [c]
  {
    FilterAppend(cycles, [c], Closed);
    assert [c][..0] == [];
  }

  /** A cycle starting before every element of a sorted sequence is inserted in front. */
  lemma {:induction false} InsertBeforeAll(sorted: seq<Cycle>, c: Cycle)
    requires SortedByStart(sorted)
    requires forall i :: 0 <= i < |sorted| ==> c.startDate < sorted[i].startDate
    ensures InsertByStart(sorted, c) == [c] + sorted
  {
    if sorted != [] {
      var init := sorted[..|sorted| - 1];
      InsertBeforeAll(init, c);
      assert [c] + init + [sorted[|sorted| - 1]] == [c] + sorted;
    }
  }

  /** The window of a sorted sequence with at least six elements ignores a new oldest cycle. */
  lemma RecentIgnoresFront(sorted: seq<Cycle>, c: Cycle)
    requires |sorted| >= WINDOW
    ensures Recent([c] + sorted) == Recent(sorted)
  {
    var a, b := Recent([c] + sorted), Recent(sorted);
    assert |a| == |b| == WINDOW;
    forall i | 0 <= i < WINDOW ensures a[i] == b[i] {
      assert ([c] + sorted)[|sorted| - i] == sorted[|sorted| - 1 - i];
    }
  }

  /** Sorting places a closed cycle older than every closed cycle in front. */
  lemma SortedWithOlder(cycles: seq<Cycle>, c: Cycle)
    requires c.endDate.Some?
    requires forall d :: d in cycles && d.endDate.Some? ==> c.startDate < d.startDate
    ensures SortedCompleted(cycles + [c]) == [c] + SortedCompleted(cycles)
  {
    var completed := Completed(cycles);
    var sorted := SortedCompleted(cycles);
    CompletedAppend(cycles, c);
    assert (completed + [c])[..|completed|] == completed;
    assert SortByStart(completed + [c]) == InsertByStart(sorted, c);
    SortedCompletedMembers(cycles);
    forall i | 0 <= i < |sorted| ensures c.startDate < sorted[i].startDate {
      assert sorted[i] in sorted;
    }
    InsertBeforeAll(sorted, c);
  }

  /** Two histories with the same window give the same internals. */
  lemma SameWindowSameInternals(cycles: seq<Cycle>, others: seq<Cycle>)
    requires |Completed(cycles)| >= 2 && |Completed(others)| >= 2
    requires Recent(SortedCompleted(cycles)) == Recent(SortedCompleted(others))
    ensures CalcInternals(cycles) == CalcInternals(others)
  {
    InternalsOfWindow(cycles);
    InternalsOfWindow(others);
    var a, b := SortedCompleted(cycles), SortedCompleted(others);
    assert a[|a| - 1] == Recent(a)[0] == Recent(b)[0] == b[|b| - 1];
  }

  /** Two histories with the same window get the same forecast. */
  lemma SameWindowSamePrediction(cycles: seq<Cycle>, others: seq<Cycle>, sqrt: real -> real)
    requires |Completed(cycles)| >= 2 && |Completed(others)| >= 2
    requires Recent(SortedCompleted(cycles)) == Recent(SortedCompleted(others))
    ensures Predict(cycles, sqrt) == Predict(others, sqrt)
  {
    SameWindowSameInternals(cycles, others);
    PredictOfInternals(cycles, sqrt);
    PredictOfInternals(others, sqrt);
  }

  /**
   * Once six cycles are closed, recording an older closed cycle leaves the
   * forecast unchanged: only the latest six cycles are consulted.
   */
  lemma OlderCycleIgnored(cycles: seq<Cycle>, c: Cycle, sqrt: real -> real)
    requires |Completed(cycles)| >= WINDOW
    requires c.endDate.Some?
    requires forall d :: d in cycles && d.endDate.Some? ==> c.startDate < d.startDate
    ensures Predict(cycles + [c], sqrt) == Predict(cycles, sqrt)
  {
    SortedWithOlder(cycles, c);
    RecentIgnoresFront(SortedCompleted(cycles), c);
    SameWindowSamePrediction(cycles + [c], cycles, sqrt);
  }

  /** The last period reported is that of the closed cycle with the latest start. */
  lemma StatsLastPeriod(cycles: seq<Cycle>)
    requires |Completed(cycles)| >= 1
    ensures
      var r := Stats(cycles);
      && (exists c :: c in cycles && c.endDate.Some? &&
            c.startDate == r.lastPeriodStart.value && c.endDate == r.lastPeriodEnd)
      && (forall c :: c in cycles && c.endDate.Some? ==> c.startDate <= r.lastPeriodStart.value)
  {
    LatestStart(cycles);
    var sorted := SortedCompleted(cycles);
    assert sorted == SortByStart(Completed(cycles));
    assert Stats(cycles).lastPeriodStart == Some(sorted[|sorted| - 1].startDate);
  }

  lemma {:induction false} SumAtLeast(xs: seq<int>, lo: real)
    requires forall i :: 0 <= i < |xs| ==> lo <= xs[i] as real
    ensures |xs| as real * lo <= Sum(xs) as real
  {
    if xs != [] {
      var rest := xs[1..];
      SumAtLeast(rest, lo);
      var n := |rest| as real;
      assert |xs| as real == n + 1.0;
      OneMore(n, lo);
    }
  }

  lemma {:induction false} SumAtMost(xs: seq<int>, hi: real)
    requires forall i :: 0 <= i < |xs| ==> xs[i] as real <= hi
    ensures Sum(xs) as real <= |xs| as real * hi
  {
    if xs != [] {
      var rest := xs[1..];
      SumAtMost(rest, hi);
      var n := |rest| as real;
      assert |xs| as real == n + 1.0;
      OneMore(n, hi);
    }
  }

  lemma OneMore(n: real, x: real)
    ensures (n + 1.0) * x == n * x + x
  {
  }

  lemma QuotientBetween(s: real, n: real, lo: real, hi: real)
    requires n > 0.0 && n * lo <= s <= n * hi
    ensures lo <= s / n <= hi
  {
    var q := s / n;
    assert (q - lo) * n == s - n * lo >= 0.0;
    assert (hi - q) * n == n * hi - s >= 0.0;
  }

  /** Every value lies between the least and the greatest. */
  lemma WithinExtremes(xs: seq<int>)
    requires xs != []
    ensures forall i :: 0 <= i < |xs| ==> Minimum(xs).value <= xs[i] <= Maximum(xs).value
  {
    forall i | 0 <= i < |xs| ensures Minimum(xs).value <= xs[i] <= Maximum(xs).value {
      assert xs[i] in xs;
    }
  }

  /** A mean lies within any bounds of its values. */
  lemma MeanWithin(xs: seq<int>, lo: real, hi: real)
    requires xs != []
    requires forall i :: 0 <= i < |xs| ==> lo <= xs[i] as real <= hi
    ensures lo <= Mean(xs) <= hi
  {
    SumAtLeast(xs, lo);
    SumAtMost(xs, hi);
    QuotientBetween(Sum(xs) as real, |xs| as real, lo, hi);
  }

  /** A mean lies between the least and the greatest value. */
  lemma MeanBetween(xs: seq<int>)
    requires xs != []
    ensures Minimum(xs).value as real <= Mean(xs) <= Maximum(xs).value as real
  {
    WithinExtremes(xs);
    MeanWithin(xs, Minimum(xs).value as real, Maximum(xs).value as real);
  }

  /** `cycle_stats` on at least one closed cycle, in terms of the sorted closed cycles. */
  lemma StatsOfSorted(cycles: seq<Cycle>)
    requires |Completed(cycles)| >= 1
    ensures
      var sorted := SortedCompleted(cycles);
      var gaps := ForwardGaps(sorted);
      var r := Stats(cycles);
      && r.avgCycleLength == (if |gaps| == 0 then Option.None else Some(Mean(gaps)))
      && r.avgPeriodLength == Some(Mean(PeriodLengths(sorted)))
      && r.shortestCycle == Minimum(gaps)
      && r.longestCycle == Maximum(gaps)
  {
    var sorted := SortedCompleted(cycles);
    assert sorted == SortByStart(Completed(cycles));
  }

  /** The mean forward gap is the span of the starts over the number of gaps. */
  lemma ForwardMeanGap(sorted: seq<Cycle>)
    requires |sorted| >= 2
    ensures Mean(ForwardGaps(sorted)) == Span(sorted) as real / (|sorted| - 1) as real
  {
    ForwardGapSum(sorted);
    MeanOfSum(ForwardGaps(sorted), Span(sorted), |sorted| - 1);
  }

  lemma MeanOfSum(xs: seq<int>, total: int, count: int)
    requires xs != [] && Sum(xs) == total && |xs| == count
    ensures Mean(xs) == total as real / count as real
  {
  }

  /**
   * With two or more closed cycles, the average cycle length is the span from
   * the earliest to the latest start over the number of gaps, and lies between
   * the shortest and the longest cycle.
   */
  lemma StatsAverageCycle(cycles: seq<Cycle>)
    requires |Completed(cycles)| >= 2
    ensures
      var r := Stats(cycles);
      var sorted := SortedCompleted(cycles);
      var n := |sorted|;
      && r.avgCycleLength.value == Span(sorted) as real / (n - 1) as real
      && r.shortestCycle.value as real <= r.avgCycleLength.value <= r.longestCycle.value as real
  {
    var sorted := SortedCompleted(cycles);
    StatsOfSorted(cycles);
    ForwardMeanGap(sorted);
    MeanBetween(ForwardGaps(sorted));
  }

  /** The source's own example: cycles starting on days 0 and 28, five days each. */
  function TwoCycles(): seq<Cycle> {
    [Cycle(0, Some(4)), Cycle(28, Some(32))]
  }

  /** A single closed cycle gives no forecast. */
  lemma OneCycleNoPrediction(sqrt: real -> real)
    ensures Predict([Cycle(0, Some(4))], sqrt) == Option.None
  {
    assert Completed([Cycle(0, Some(4))]) == [Cycle(0, Some(4))];
  }

  /** Two cycles 28 days apart forecast day 56, five days long, with confidence 0.5. */
  lemma TwoCyclesPrediction(sqrt: real -> real)
    ensures Predict(TwoCycles(), sqrt) == Some(Prediction(56, 60, Finite(0.5)))
  {
    var cycles := TwoCycles();
    ExampleInternals();
    PredictOfInternals(cycles, sqrt);
    assert Round(28.0) == 28 && Round(5.0) == 5;
  }

  /** For the same cycles ovulation falls on day 42 and the fertile window opens on day 37. */
  lemma TwoCyclesFertility(sqrt: real -> real)
    ensures Fertility(TwoCycles(), sqrt) == Some(FertilityWindow(37, 42, 42, 40, 42))
  {
    TwoCyclesPrediction(sqrt);
  }

  /** For the same cycles the statistics give two cycles, 28.0 days apart, periods of 5.0 days. */
  lemma TwoCyclesStats()
    ensures Stats(TwoCycles()) == CycleStats(2, Some(28.0), Some(5.0), Some(28), Some(28), Some(28), Some(32))
  {
    ExampleStatsAverages();
    ExampleStatsExtremes();
  }

  lemma ExampleStatsAverages()
    ensures Stats(TwoCycles()).avgCycleLength == Some(28.0)
    ensures Stats(TwoCycles()).avgPeriodLength == Some(5.0)
  {
    ExampleWindow();
    StatsOfSorted(TwoCycles());
    ExampleLengths();
    ExampleMeans();
  }

  lemma ExampleStatsExtremes()
    ensures Stats(TwoCycles()).totalCycles == 2
    ensures Stats(TwoCycles()).shortestCycle == Some(28) && Stats(TwoCycles()).longestCycle == Some(28)
    ensures Stats(TwoCycles()).lastPeriodStart == Some(28) && Stats(TwoCycles()).lastPeriodEnd == Some(32)
  {
    ExampleWindow();
    StatsOfSorted(TwoCycles());
    ExampleLengths();
  }

  lemma ExampleInternals()
    ensures CalcInternals(TwoCycles()) == Some(Internals(28.0, 5.0, [28], 28))
  {
    ExampleWindow();
    ExampleLengths();
    ExampleMeans();
    InternalsOfWindow(TwoCycles());
  }

  lemma ExampleWindow()
    ensures |Completed(TwoCycles())| == 2
    ensures SortedCompleted(TwoCycles()) == TwoCycles()
    ensures Recent(TwoCycles()) == [TwoCycles()[1], TwoCycles()[0]]
  {
    ExampleSorted();
    var t, r := TwoCycles(), Recent(TwoCycles());
    assert |r| == 2 && r[0] == t[1] && r[1] == t[0];
  }

  lemma ExampleSorted()
    ensures Completed(TwoCycles()) == TwoCycles()
    ensures SortByStart(TwoCycles()) == TwoCycles()
  {
    ExampleCompleted();
    var a, b := Cycle(0, Some(4)), Cycle(28, Some(32));
    assert [a, b][..1] == [a] && [a][..0] == [];
    assert SortByStart([a]) == [a];
  }

  lemma ExampleCompleted()
    ensures Completed(TwoCycles()) == TwoCycles()
  {
    FilterAll(TwoCycles(), Closed);
  }

  lemma ExampleLengths()
    ensures ForwardGaps(TwoCycles()) == [28] && PeriodLengths(TwoCycles()) == [5, 5]
    ensures var recent := [TwoCycles()[1], TwoCycles()[0]];
      RecentGaps(recent) == [28] && PeriodLengths(recent) == [5, 5]
  {
    var a, b := Cycle(0, Some(4)), Cycle(28, Some(32));
    assert [a, b][1..] == [b] && [b, a][1..] == [a];
    assert PeriodLengths([b]) == [5] && PeriodLengths([a]) == [5];
  }

  lemma ExampleMeans()
    ensures Mean([28]) == 28.0 && Mean([5, 5]) == 5.0
  {
    assert Sum([28]) == 28;
    assert Sum([5, 5]) == 10 by {
      assert [5, 5][1..] == [5];
    }
  }
}
