/**
 * Cycle reconstruction (`rebuild_cycles` in src-tauri/src/commands.rs): the
 * dates with recorded flow, sorted and without repeats, are merged greedily
 * into runs; a date at most 2 days after the current run's end extends it.
 * Every run becomes a closed cycle except the last, which stays open while
 * it ended at most 2 days before today.
 */
module Cycles {
  import opened Wrappers
  import opened Models

  /** The dates of the logs that record some flow, in log order, repeats kept. */
  function FlowDates(logs: seq<DayLog>): (ds: seq<Date>)
    ensures forall d :: d in ds <==> exists l :: l in logs && IsFlowDay(l) && l.date == d
  {
    if logs == [] then []
    else
      var rest := FlowDates(logs[1..]);
      assert forall l :: l in logs <==> l == logs[0] || l in logs[1..];
      if IsFlowDay(logs[0]) then [logs[0].date] + rest else rest
  }

  predicate StrictlyIncreasing(s: seq<int>) {
    forall i, j :: 0 <= i < j < |s| ==> s[i] < s[j]
  }

  /** Inserts `x` into a strictly increasing sequence unless it is already there. */
  function InsertUnique(s: seq<int>, x: int): (r: seq<int>)
    requires StrictlyIncreasing(s)
    ensures StrictlyIncreasing(r)
    ensures forall y :: y in r <==> y in s || y == x
  {
    if s == [] then [x]
    else
      HeadBelowRest(s);
      assert forall y :: y in s <==> y == s[0] || y in s[1..];
      if x < s[0] then
        ConsIncreasing(x, s);
        [x] + s
      else if x == s[0] then s
      else
        var tail := InsertUnique(s[1..], x);
        ConsIncreasing(s[0], tail);
        [s[0]] + tail
  }

  lemma HeadBelowRest(s: seq<int>)
    requires s != [] && StrictlyIncreasing(s)
    ensures forall y :: y in s[1..] ==> s[0] < y
  {
    forall y | y in s[1..] ensures s[0] < y {
      var k :| 0 <= k < |s| - 1 && s[1..][k] == y;
      assert s[k + 1] == y;
    }
  }

  lemma ConsIncreasing(h: int, t: seq<int>)
    requires StrictlyIncreasing(t)
    requires forall y :: y in t ==> h < y
    ensures StrictlyIncreasing([h] + t)
  {
    var r := [h] + t;
    forall i, j | 0 <= i < j < |r| ensures r[i] < r[j] {
      assert r[j] == t[j - 1];
      if i == 0 {
        assert t[j - 1] in t;
      } else {
        assert r[i] == t[i - 1];
      }
    }
  }

  /** `Vec::sort` followed by `Vec::dedup`: the same dates, ascending, each once. */
  function SortDedup(s: seq<int>): (r: seq<int>)
    ensures StrictlyIncreasing(r)
    ensures forall x :: x in r <==> x in s
  {
    if s == [] then []
    else
      var init := SortDedup(s[..|s| - 1]);
      assert forall x :: x in s <==> x in s[..|s| - 1] || x == s[|s| - 1];
      InsertUnique(init, s[|s| - 1])
  }

  /** The dates rebuild_cycles walks through. */
  function FlowDays(logs: seq<DayLog>): (days: seq<Date>)
    ensures StrictlyIncreasing(days)
    ensures forall d :: d in days <==> exists l :: l in logs && IsFlowDay(l) && l.date == d
  {
    SortDedup(FlowDates(logs))
  }

  /** The last day of the run behind cycle `c`: its end date, or `lastDay` for the open cycle. */
  function RunEnd(c: Cycle, lastDay: Date): Date {
    if c.endDate.Some? then c.endDate.value else lastDay
  }

  /**
   * `cs` splits the ascending dates `days` into maximal runs: every cycle
   * starts and ends on one of the dates, consecutive cycles are more than 2
   * days apart, every date lies in some cycle, and no two consecutive dates
   * inside one cycle are more than 2 days apart. `lastDay` stands for the
   * end of an open cycle.
   */
  ghost predicate IsRunDecomposition(days: seq<Date>, cs: seq<Cycle>, lastDay: Date) {
    && RunsOnDays(days, cs, lastDay)
    && RunsSeparated(cs, lastDay)
    && CoversAll(days, cs, lastDay)
    && NoGapInsideRun(days, cs, lastDay)
  }

  /** Every cycle starts and ends on one of the dates, start first. */
  ghost predicate RunsOnDays(days: seq<Date>, cs: seq<Cycle>, lastDay: Date) {
    forall k :: 0 <= k < |cs| ==>
      cs[k].startDate in days && RunEnd(cs[k], lastDay) in days && cs[k].startDate <= RunEnd(cs[k], lastDay)
  }

  /** A cycle starts more than 2 days after every earlier cycle's run ends. */
  ghost predicate RunsSeparated(cs: seq<Cycle>, lastDay: Date) {
    forall k, k' :: 0 <= k < k' < |cs| ==> cs[k'].startDate - RunEnd(cs[k], lastDay) > 2
  }

  /** Consecutive dates that lie in the same cycle are at most 2 days apart. */
  ghost predicate NoGapInsideRun(days: seq<Date>, cs: seq<Cycle>, lastDay: Date) {
    forall j, k {:trigger Gap(days, j), cs[k]} ::
      0 < j < |days| && 0 <= k < |cs| && cs[k].startDate <= days[j - 1] && days[j] <= RunEnd(cs[k], lastDay)
      ==> Gap(days, j) <= 2
  }

  /** How many days separate the `j`-th date from the one before it. */
  function Gap(days: seq<Date>, j: int): int
    requires 0 < j < |days|
  {
    days[j] - days[j - 1]
  }

  /** Every date lies in some cycle. */
  ghost predicate CoversAll(days: seq<Date>, cs: seq<Cycle>, lastDay: Date) {
    forall j {:trigger Covered(cs, lastDay, days[j])} :: 0 <= j < |days| ==> Covered(cs, lastDay, days[j])
  }

  /** Some cycle of `cs` spans `d`. */
  ghost predicate Covered(cs: seq<Cycle>, lastDay: Date, d: Date) {
    exists k :: 0 <= k < |cs| && cs[k].startDate <= d <= RunEnd(cs[k], lastDay)
  }

  predicate AllClosed(cs: seq<Cycle>) {
    forall k :: 0 <= k < |cs| ==> cs[k].endDate.Some?
  }

  /**
   * What rebuild_cycles leaves in `cycles` for the logs `logs` on day
   * `today`: nothing when no log records flow; otherwise the run
   * decomposition of the flow days in which every cycle but the last is
   * closed, and the last is open exactly when its run ended at most 2 days
   * before `today` (or ends after it).
   */
  ghost predicate RebuiltFrom(logs: seq<DayLog>, today: Date, cycles: seq<Cycle>) {
    var days := FlowDays(logs);
    && (days == [] <==> cycles == [])
    && (days != [] ==>
          var lastDay := days[|days| - 1];
          && IsRunDecomposition(days, cycles, lastDay)
          && AllClosed(cycles[..|cycles| - 1])
          && cycles[|cycles| - 1].endDate == (if today - lastDay <= 2 then Option.None else Some(lastDay)))
  }

  /** `rebuild_cycles`, with `today` given instead of read from the clock. */
  method RebuildCycles(logs: seq<DayLog>, today: Date) returns (cycles: seq<Cycle>)
    ensures RebuiltFrom(logs, today, cycles)
  {
    var flowDays := FlowDays(logs);
    if |flowDays| == 0 {
      return [];
    }
    cycles := [];
    var cycleStart := flowDays[0];
    var cycleEnd := flowDays[0];
    assert flowDays[..1] == [flowDays[0]];
    SingleRun(flowDays[0]);
    assert cycles + [Cycle(cycleStart, Some(cycleEnd))] == [Cycle(flowDays[0], Some(flowDays[0]))];
    for i := 1 to |flowDays|
      invariant cycleEnd == flowDays[i - 1]
      invariant AllClosed(cycles)
      invariant IsRunDecomposition(flowDays[..i], cycles + [Cycle(cycleStart, Some(cycleEnd))], cycleEnd)
    {
      var day := flowDays[i];
      IncreasingPrefix(flowDays, i);
      if day - cycleEnd <= 2 {
        ExtendRun(flowDays[..i], cycles, cycleStart, cycleEnd, day);
        cycleEnd := day;
      } else {
        StartRun(flowDays[..i], cycles, cycleStart, cycleEnd, day);
        cycles := cycles + [Cycle(cycleStart, Some(cycleEnd))];
        cycleStart := day;
        cycleEnd := day;
      }
    }
    assert flowDays[..|flowDays|] == flowDays;
    FinishRebuild(logs, today, cycles, cycleStart, cycleEnd);
    cycles := cycles + [Cycle(cycleStart, if today - cycleEnd <= 2 then Option.None else Some(cycleEnd))];
  }

  /** The run still being built is closed, or left open when it ended within 2 days of `today`. */
  lemma FinishRebuild(logs: seq<DayLog>, today: Date, closed: seq<Cycle>, s: Date, e: Date)
    requires FlowDays(logs) != [] && e == FlowDays(logs)[|FlowDays(logs)| - 1]
    requires IsRunDecomposition(FlowDays(logs), closed + [Cycle(s, Some(e))], e)
    requires AllClosed(closed)
    ensures RebuiltFrom(logs, today, closed + [Cycle(s, if today - e <= 2 then Option.None else Some(e))])
  {
    var lastEnd := if today - e <= 2 then Option.None else Some(e);
    CloseLast(FlowDays(logs), closed, s, e, lastEnd);
    var cs := closed + [Cycle(s, lastEnd)];
    assert cs[..|cs| - 1] == closed;
  }

  /** A single date forms a single run. */
  lemma SingleRun(d: Date)
    ensures IsRunDecomposition([d], [Cycle(d, Some(d))], d)
  {
    var cs := [Cycle(d, Some(d))];
    assert cs[0].startDate <= [d][0] <= RunEnd(cs[0], d);
    assert Covered(cs, d, [d][0]);
  }

  lemma IncreasingPrefix(s: seq<int>, i: nat)
    requires StrictlyIncreasing(s) && i < |s|
    ensures StrictlyIncreasing(s[..i] + [s[i]]) && s[..i + 1] == s[..i] + [s[i]]
  {
    assert s[..i] + [s[i]] == s[..i + 1];
  }

  /** A date within 2 days of the current run's end extends that run. */
  lemma ExtendRun(days: seq<Date>, closed: seq<Cycle>, s: Date, e: Date, day: Date)
    requires StrictlyIncreasing(days + [day])
    requires days != [] && e == days[|days| - 1] && day - e <= 2
    requires AllClosed(closed)
    requires IsRunDecomposition(days, closed + [Cycle(s, Some(e))], e)
    ensures IsRunDecomposition(days + [day], closed + [Cycle(s, Some(day))], day)
  {
    var cs, cs' := closed + [Cycle(s, Some(e))], closed + [Cycle(s, Some(day))];
    var days' := days + [day];
    assert forall k :: 0 <= k < |closed| ==> cs'[k] == cs[k] == closed[k];
    EarlierDaysBelowLast(days, day);
    assert cs[|closed|].startDate <= RunEnd(cs[|closed|], e);
    ExtendOnDays(days, cs, cs', e, day);
    ExtendSeparated(cs, cs', e, day);
    ExtendCovered(days, cs, cs', e, day);
    ExtendNoGap(days, cs, cs', e, day);
  }

  lemma EarlierDaysBelowLast(days: seq<Date>, day: Date)
    requires days != [] && StrictlyIncreasing(days + [day])
    ensures forall j :: 0 <= j < |days| ==> (days + [day])[j] == days[j] <= days[|days| - 1] < day
  {
    var days' := days + [day];
    forall j | 0 <= j < |days| ensures days'[j] == days[j] <= days[|days| - 1] < day {
      assert days'[|days| - 1] < days'[|days|];
      assert j == |days| - 1 || days'[j] < days'[|days| - 1];
    }
  }

  /* In the four lemmas below, `cs'` is `cs` with its last (closed) cycle's
     end moved from `e`, the latest date, to the later date `day`. */

  lemma ExtendOnDays(days: seq<Date>, cs: seq<Cycle>, cs': seq<Cycle>, e: Date, day: Date)
    requires cs != [] && |cs'| == |cs| && AllClosed(cs)
    requires forall k :: 0 <= k < |cs| - 1 ==> cs'[k] == cs[k]
    requires cs[|cs| - 1].endDate == Some(e) && cs'[|cs| - 1] == Cycle(cs[|cs| - 1].startDate, Some(day))
    requires e < day
    requires RunsOnDays(days, cs, e)
    ensures RunsOnDays(days + [day], cs', day)
  {
    var days' := days + [day];
    forall k | 0 <= k < |cs'|
      ensures cs'[k].startDate in days' && RunEnd(cs'[k], day) in days' && cs'[k].startDate <= RunEnd(cs'[k], day)
    {
      assert cs[k].startDate in days && RunEnd(cs[k], e) in days;
    }
  }

  lemma ExtendSeparated(cs: seq<Cycle>, cs': seq<Cycle>, e: Date, day: Date)
    requires cs != [] && |cs'| == |cs| && AllClosed(cs)
    requires forall k :: 0 <= k < |cs| - 1 ==> cs'[k] == cs[k]
    requires cs'[|cs| - 1].startDate == cs[|cs| - 1].startDate
    requires RunsSeparated(cs, e)
    ensures RunsSeparated(cs', day)
  {
    forall k, k' | 0 <= k < k' < |cs'| ensures cs'[k'].startDate - RunEnd(cs'[k], day) > 2 {
      assert cs[k'].startDate - RunEnd(cs[k], e) > 2;
    }
  }

  lemma ExtendCovered(days: seq<Date>, cs: seq<Cycle>, cs': seq<Cycle>, e: Date, day: Date)
    requires cs != [] && |cs'| == |cs| && AllClosed(cs)
    requires forall k :: 0 <= k < |cs| - 1 ==> cs'[k] == cs[k]
    requires cs[|cs| - 1].endDate == Some(e) && cs'[|cs| - 1] == Cycle(cs[|cs| - 1].startDate, Some(day))
    requires cs[|cs| - 1].startDate <= e <= day
    requires CoversAll(days, cs, e)
    ensures CoversAll(days + [day], cs', day)
  {
    var days' := days + [day];
    forall j | 0 <= j < |days'| ensures Covered(cs', day, days'[j]) {
      if j < |days| {
        assert Covered(cs, e, days[j]);
        var k :| 0 <= k < |cs| && cs[k].startDate <= days[j] <= RunEnd(cs[k], e);
        assert cs'[k].startDate <= days'[j] <= RunEnd(cs'[k], day);
      } else {
        var k := |cs| - 1;
        assert cs'[k].startDate <= days'[j] <= RunEnd(cs'[k], day);
      }
    }
  }

  lemma ExtendNoGap(days: seq<Date>, cs: seq<Cycle>, cs': seq<Cycle>, e: Date, day: Date)
    requires cs != [] && |cs'| == |cs| && AllClosed(cs)
    requires forall k :: 0 <= k < |cs| - 1 ==> cs'[k] == cs[k]
    requires cs[|cs| - 1].endDate == Some(e) && cs'[|cs| - 1] == Cycle(cs[|cs| - 1].startDate, Some(day))
    requires days != [] && e == days[|days| - 1] && day - e <= 2
    requires forall j :: 0 <= j < |days| ==> days[j] <= e
    requires NoGapInsideRun(days, cs, e)
    ensures NoGapInsideRun(days + [day], cs', day)
  {
    var days' := days + [day];
    forall j, k | 0 < j < |days'| && 0 <= k < |cs'| &&
        cs'[k].startDate <= days'[j - 1] && days'[j] <= RunEnd(cs'[k], day)
      ensures Gap(days', j) <= 2
    {
      if j < |days| {
        assert cs[k].startDate <= days[j - 1] && days[j] <= RunEnd(cs[k], e);
        assert Gap(days, j) == Gap(days', j);
      }
    }
  }

  /** A date more than 2 days after the current run's end closes it and starts a new one. */
  lemma StartRun(days: seq<Date>, closed: seq<Cycle>, s: Date, e: Date, day: Date)
    requires StrictlyIncreasing(days + [day])
    requires days != [] && e == days[|days| - 1] && day - e > 2
    requires AllClosed(closed)
    requires IsRunDecomposition(days, closed + [Cycle(s, Some(e))], e)
    ensures IsRunDecomposition(days + [day], closed + [Cycle(s, Some(e))] + [Cycle(day, Some(day))], day)
  {
    var cs := closed + [Cycle(s, Some(e))];
    var cs' := cs + [Cycle(day, Some(day))];
    EarlierDaysBelowLast(days, day);
    StartOnDays(days, cs, e, day);
    StartSeparated(days, cs, e, day);
    StartCovered(days, cs, e, day);
    StartNoGap(days, cs, e, day);
  }

  /* In the four lemmas below, `cs` is closed, its runs end on or before `e`,
     and the one-day cycle at the later date `day` is appended. */

  lemma StartOnDays(days: seq<Date>, cs: seq<Cycle>, e: Date, day: Date)
    requires AllClosed(cs)
    requires RunsOnDays(days, cs, e)
    ensures RunsOnDays(days + [day], cs + [Cycle(day, Some(day))], day)
  {
    var cs', days' := cs + [Cycle(day, Some(day))], days + [day];
    forall k | 0 <= k < |cs'|
      ensures cs'[k].startDate in days' && RunEnd(cs'[k], day) in days' && cs'[k].startDate <= RunEnd(cs'[k], day)
    {
      if k < |cs| {
        assert cs'[k] == cs[k];
        assert cs[k].startDate in days && RunEnd(cs[k], e) in days;
      } else {
        assert days'[|days|] == day;
      }
    }
  }

  lemma StartSeparated(days: seq<Date>, cs: seq<Cycle>, e: Date, day: Date)
    requires AllClosed(cs)
    requires RunsOnDays(days, cs, e) && RunsSeparated(cs, e)
    requires forall j :: 0 <= j < |days| ==> days[j] <= e
    requires day - e > 2
    ensures RunsSeparated(cs + [Cycle(day, Some(day))], day)
  {
    var cs' := cs + [Cycle(day, Some(day))];
    forall k, k' | 0 <= k < k' < |cs'| ensures cs'[k'].startDate - RunEnd(cs'[k], day) > 2 {
      assert cs'[k] == cs[k];
      if k' < |cs| {
        assert cs'[k'] == cs[k'];
        assert cs[k'].startDate - RunEnd(cs[k], e) > 2;
      } else {
        assert RunEnd(cs[k], e) in days;
      }
    }
  }

  lemma StartCovered(days: seq<Date>, cs: seq<Cycle>, e: Date, day: Date)
    requires AllClosed(cs)
    requires CoversAll(days, cs, e)
    ensures CoversAll(days + [day], cs + [Cycle(day, Some(day))], day)
  {
    var cs', days' := cs + [Cycle(day, Some(day))], days + [day];
    forall j | 0 <= j < |days'| ensures Covered(cs', day, days'[j]) {
      if j < |days| {
        assert Covered(cs, e, days[j]);
        var k :| 0 <= k < |cs| && cs[k].startDate <= days[j] <= RunEnd(cs[k], e);
        assert cs'[k] == cs[k] && cs[k].endDate.Some?;
        assert cs'[k].startDate <= days'[j] <= RunEnd(cs'[k], day);
      } else {
        assert cs'[|cs|].startDate <= days'[j] <= RunEnd(cs'[|cs|], day);
      }
    }
  }

  lemma StartNoGap(days: seq<Date>, cs: seq<Cycle>, e: Date, day: Date)
    requires AllClosed(cs)
    requires NoGapInsideRun(days, cs, e) && RunsOnDays(days, cs, e)
    requires days != [] && e == days[|days| - 1]
    requires forall j :: 0 <= j < |days| ==> days[j] <= e
    requires e < day
    ensures NoGapInsideRun(days + [day], cs + [Cycle(day, Some(day))], day)
  {
    var cs', days' := cs + [Cycle(day, Some(day))], days + [day];
    forall j, k | 0 < j < |days'| && 0 <= k < |cs'| &&
        cs'[k].startDate <= days'[j - 1] && days'[j] <= RunEnd(cs'[k], day)
      ensures Gap(days', j) <= 2
    {
      assert days'[j - 1] == days[j - 1] <= e;
      assert k < |cs|;
      assert cs'[k] == cs[k];
      assert RunEnd(cs[k], e) in days;
      assert j < |days|;
      assert cs[k].startDate <= days[j - 1] && days[j] <= RunEnd(cs[k], e);
      assert Gap(days, j) == Gap(days', j);
    }
  }

  /** Replacing the last cycle's end by `lastEnd` (None or the run end) keeps the decomposition. */
  lemma CloseLast(days: seq<Date>, closed: seq<Cycle>, s: Date, e: Date, lastEnd: Option<Date>)
    requires lastEnd == Option.None || lastEnd == Some(e)
    requires IsRunDecomposition(days, closed + [Cycle(s, Some(e))], e)
    requires AllClosed(closed)
    ensures IsRunDecomposition(days, closed + [Cycle(s, lastEnd)], e)
  {
    SameSpans(days, closed + [Cycle(s, Some(e))], closed + [Cycle(s, lastEnd)], e, e);
  }

  /** The decomposition depends only on where each cycle's run starts and ends. */
  lemma SameSpans(days: seq<Date>, cs: seq<Cycle>, cs': seq<Cycle>, e: Date, e': Date)
    requires |cs| == |cs'|
    requires forall k :: 0 <= k < |cs| ==> cs'[k].startDate == cs[k].startDate && RunEnd(cs'[k], e') == RunEnd(cs[k], e)
    requires IsRunDecomposition(days, cs, e)
    ensures IsRunDecomposition(days, cs', e')
  {
    assert RunsOnDays(days, cs', e');
    assert RunsSeparated(cs', e');
    assert NoGapInsideRun(days, cs', e');
    forall j | 0 <= j < |days| ensures Covered(cs', e', days[j]) {
      assert Covered(cs, e, days[j]);
      var k :| 0 <= k < |cs| && cs[k].startDate <= days[j] <= RunEnd(cs[k], e);
      assert cs'[k].startDate <= days[j] <= RunEnd(cs'[k], e');
    }
  }

  /** Cycle starts strictly increase, and each run ends before the next cycle starts. */
  lemma StartsIncrease(days: seq<Date>, cs: seq<Cycle>, lastDay: Date)
    requires IsRunDecomposition(days, cs, lastDay)
    ensures forall k, k' :: 0 <= k < k' < |cs| ==>
      cs[k].startDate <= RunEnd(cs[k], lastDay) < cs[k'].startDate
  {
  }

  /** Every flow day lies in exactly one cycle. */
  lemma InExactlyOneCycle(days: seq<Date>, cs: seq<Cycle>, lastDay: Date, j: int)
    requires IsRunDecomposition(days, cs, lastDay)
    requires 0 <= j < |days|
    ensures exists k :: 0 <= k < |cs| && cs[k].startDate <= days[j] <= RunEnd(cs[k], lastDay)
    ensures forall k, k' ::
      0 <= k < |cs| && cs[k].startDate <= days[j] <= RunEnd(cs[k], lastDay) &&
      0 <= k' < |cs| && cs[k'].startDate <= days[j] <= RunEnd(cs[k'], lastDay)
      ==> k == k'
  {
    assert Covered(cs, lastDay, days[j]);
    forall k, k' |
      0 <= k < |cs| && cs[k].startDate <= days[j] <= RunEnd(cs[k], lastDay) &&
      0 <= k' < |cs| && cs[k'].startDate <= days[j] <= RunEnd(cs[k'], lastDay)
      ensures k == k'
    {
    }
  }

  /** Each cycle starts and ends on a day whose log records some flow. */
  lemma BoundsAreFlowDays(logs: seq<DayLog>, cs: seq<Cycle>, lastDay: Date, k: int)
    requires IsRunDecomposition(FlowDays(logs), cs, lastDay)
    requires 0 <= k < |cs|
    ensures exists l :: l in logs && IsFlowDay(l) && l.date == cs[k].startDate
    ensures exists l :: l in logs && IsFlowDay(l) && l.date == RunEnd(cs[k], lastDay)
  {
    assert cs[k].startDate in FlowDays(logs);
    assert RunEnd(cs[k], lastDay) in FlowDays(logs);
  }

  /* ---------------- The rebuild is determined by its contract ---------------- */

  /** The start dates of the cycles, in order. */
  function Starts(cs: seq<Cycle>): (r: seq<Date>)
    ensures |r| == |cs| && forall k :: 0 <= k < |cs| ==> r[k] == cs[k].startDate
  {
    seq(|cs|, k requires 0 <= k < |cs| => cs[k].startDate)
  }

  /** The last days of the cycles' runs, in order. */
  function RunEnds(cs: seq<Cycle>, lastDay: Date): (r: seq<Date>)
    ensures |r| == |cs| && forall k :: 0 <= k < |cs| ==> r[k] == RunEnd(cs[k], lastDay)
  {
    seq(|cs|, k requires 0 <= k < |cs| => RunEnd(cs[k], lastDay))
  }

  /** The `j`-th date opens a run: it is the first, or more than 2 days after the one before. */
  predicate OpensRun(days: seq<Date>, j: int)
    requires 0 <= j < |days|
  {
    j == 0 || Gap(days, j) > 2
  }

  /** The `j`-th date closes a run: it is the last, or more than 2 days before the one after. */
  predicate ClosesRun(days: seq<Date>, j: int)
    requires 0 <= j < |days|
  {
    j == |days| - 1 || Gap(days, j + 1) > 2
  }

  /** A cycle's start opens a run: the date before it lies in an earlier cycle, more than 2 days back. */
  lemma StartOpensRun(days: seq<Date>, cs: seq<Cycle>, lastDay: Date, k: int, j: int)
    requires StrictlyIncreasing(days) && StrictlyIncreasing(Starts(cs))
    requires CoversAll(days, cs, lastDay) && RunsSeparated(cs, lastDay)
    requires 0 <= k < |cs| && 0 <= j < |days| && days[j] == cs[k].startDate
    ensures OpensRun(days, j)
  {
    if j > 0 {
      assert Covered(cs, lastDay, days[j - 1]);
      var k' :| 0 <= k' < |cs| && cs[k'].startDate <= days[j - 1] <= RunEnd(cs[k'], lastDay);
      assert Starts(cs)[k'] < Starts(cs)[k];
      assert cs[k].startDate - RunEnd(cs[k'], lastDay) > 2;
    }
  }

  /** A date that opens a run is the start of the cycle containing it. */
  lemma OpenerIsStart(days: seq<Date>, cs: seq<Cycle>, lastDay: Date, j: int, k: int)
    requires StrictlyIncreasing(days)
    requires RunsOnDays(days, cs, lastDay) && NoGapInsideRun(days, cs, lastDay)
    requires 0 <= j < |days| && OpensRun(days, j)
    requires 0 <= k < |cs| && cs[k].startDate <= days[j] <= RunEnd(cs[k], lastDay)
    ensures cs[k].startDate == days[j]
  {
    var i :| 0 <= i < |days| && days[i] == cs[k].startDate;
    assert j > 0 ==> days[j - 1] < cs[k].startDate;
  }

  /** A run's last day closes a run: the date after it lies in a later cycle, more than 2 days on. */
  lemma EndClosesRun(days: seq<Date>, cs: seq<Cycle>, lastDay: Date, k: int, j: int)
    requires StrictlyIncreasing(days) && StrictlyIncreasing(Starts(cs))
    requires RunsOnDays(days, cs, lastDay) && CoversAll(days, cs, lastDay) && RunsSeparated(cs, lastDay)
    requires 0 <= k < |cs| && 0 <= j < |days| && days[j] == RunEnd(cs[k], lastDay)
    ensures ClosesRun(days, j)
  {
    if j < |days| - 1 {
      assert Covered(cs, lastDay, days[j + 1]);
      var k' :| 0 <= k' < |cs| && cs[k'].startDate <= days[j + 1] <= RunEnd(cs[k'], lastDay);
      assert k < k';
      assert cs[k'].startDate - RunEnd(cs[k], lastDay) > 2;
    }
  }

  /** A date that closes a run is the last day of the run containing it. */
  lemma CloserIsEnd(days: seq<Date>, cs: seq<Cycle>, lastDay: Date, j: int, k: int)
    requires StrictlyIncreasing(days)
    requires RunsOnDays(days, cs, lastDay) && NoGapInsideRun(days, cs, lastDay)
    requires 0 <= j < |days| && ClosesRun(days, j)
    requires 0 <= k < |cs| && cs[k].startDate <= days[j] <= RunEnd(cs[k], lastDay)
    ensures RunEnd(cs[k], lastDay) == days[j]
  {
    var i :| 0 <= i < |days| && days[i] == RunEnd(cs[k], lastDay);
    assert j < |days| - 1 ==> RunEnd(cs[k], lastDay) < days[j + 1];
  }

  /** In a run decomposition the cycles start exactly on the dates that open a run. */
  lemma StartsOpenRuns(days: seq<Date>, cs: seq<Cycle>, lastDay: Date)
    requires StrictlyIncreasing(days) && IsRunDecomposition(days, cs, lastDay)
    ensures StrictlyIncreasing(Starts(cs))
    ensures forall x :: x in Starts(cs) <==> exists j :: 0 <= j < |days| && days[j] == x && OpensRun(days, j)
  {
    StartsIncrease(days, cs, lastDay);
    var starts := Starts(cs);
    forall x | x in starts ensures exists j :: 0 <= j < |days| && days[j] == x && OpensRun(days, j) {
      var k :| 0 <= k < |cs| && starts[k] == x;
      var j :| 0 <= j < |days| && days[j] == x;
      StartOpensRun(days, cs, lastDay, k, j);
    }
    forall x | exists j :: 0 <= j < |days| && days[j] == x && OpensRun(days, j) ensures x in starts {
      var j :| 0 <= j < |days| && days[j] == x && OpensRun(days, j);
      assert Covered(cs, lastDay, days[j]);
      var k :| 0 <= k < |cs| && cs[k].startDate <= days[j] <= RunEnd(cs[k], lastDay);
      OpenerIsStart(days, cs, lastDay, j, k);
      assert starts[k] == x;
    }
  }

  /** In a run decomposition the runs end exactly on the dates that close a run. */
  lemma RunEndsCloseRuns(days: seq<Date>, cs: seq<Cycle>, lastDay: Date)
    requires StrictlyIncreasing(days) && IsRunDecomposition(days, cs, lastDay)
    ensures StrictlyIncreasing(RunEnds(cs, lastDay))
    ensures forall x :: x in RunEnds(cs, lastDay) <==> exists j :: 0 <= j < |days| && days[j] == x && ClosesRun(days, j)
  {
    StartsIncrease(days, cs, lastDay);
    var ends := RunEnds(cs, lastDay);
    forall x | x in ends ensures exists j :: 0 <= j < |days| && days[j] == x && ClosesRun(days, j) {
      var k :| 0 <= k < |cs| && ends[k] == x;
      var j :| 0 <= j < |days| && days[j] == x;
      EndClosesRun(days, cs, lastDay, k, j);
    }
    forall x | exists j :: 0 <= j < |days| && days[j] == x && ClosesRun(days, j) ensures x in ends {
      var j :| 0 <= j < |days| && days[j] == x && ClosesRun(days, j);
      assert Covered(cs, lastDay, days[j]);
      var k :| 0 <= k < |cs| && cs[k].startDate <= days[j] <= RunEnd(cs[k], lastDay);
      CloserIsEnd(days, cs, lastDay, j, k);
      assert ends[k] == x;
    }
  }

  /** Two strictly increasing sequences with the same members are equal. */
  lemma {:induction false} SameMembersSame(a: seq<int>, b: seq<int>)
    requires StrictlyIncreasing(a) && StrictlyIncreasing(b)
    requires forall x :: x in a <==> x in b
    ensures a == b
  {
    if a != [] {
      assert a[0] in a;
    }
    if b != [] {
      assert b[0] in b;
    }
    if a != [] && b != [] {
      assert a[0] in b && b[0] in a;
      assert a[0] == b[0];
      forall x ensures x in a[1..] <==> x in b[1..] {
        assert x in a[1..] <==> x in a && x != a[0];
        assert x in b[1..] <==> x in b && x != b[0];
      }
      SameMembersSame(a[1..], b[1..]);
      assert a == [a[0]] + a[1..] && b == [b[0]] + b[1..];
    }
  }

  /** Two run decompositions of the same dates have the same starts and the same run ends. */
  lemma DecompositionsAgree(days: seq<Date>, cs: seq<Cycle>, cs': seq<Cycle>, lastDay: Date)
    requires StrictlyIncreasing(days)
    requires IsRunDecomposition(days, cs, lastDay) && IsRunDecomposition(days, cs', lastDay)
    ensures Starts(cs) == Starts(cs') && RunEnds(cs, lastDay) == RunEnds(cs', lastDay)
  {
    StartsOpenRuns(days, cs, lastDay);
    StartsOpenRuns(days, cs', lastDay);
    SameMembersSame(Starts(cs), Starts(cs'));
    RunEndsCloseRuns(days, cs, lastDay);
    RunEndsCloseRuns(days, cs', lastDay);
    SameMembersSame(RunEnds(cs, lastDay), RunEnds(cs', lastDay));
  }

  /** Two rebuilds of the same logs have the same starts and the same run ends. */
  lemma RebuiltAgree(logs: seq<DayLog>, today: Date, cs: seq<Cycle>, cs': seq<Cycle>)
    requires RebuiltFrom(logs, today, cs) && RebuiltFrom(logs, today, cs')
    requires FlowDays(logs) != []
    ensures
      var days := FlowDays(logs);
      var lastDay := days[|days| - 1];
      Starts(cs) == Starts(cs') && RunEnds(cs, lastDay) == RunEnds(cs', lastDay)
  {
    var days := FlowDays(logs);
    DecompositionsAgree(days, cs, cs', days[|days| - 1]);
  }

  /** Every rebuilt cycle is its start with its run end, closed unless it is the open last one. */
  lemma RebuiltCycle(logs: seq<DayLog>, today: Date, cs: seq<Cycle>, k: int)
    requires RebuiltFrom(logs, today, cs)
    requires 0 <= k < |cs|
    ensures FlowDays(logs) != []
    ensures
      var days := FlowDays(logs);
      var lastDay := days[|days| - 1];
      var closed := k < |cs| - 1 || today - lastDay > 2;
      cs[k] == Cycle(Starts(cs)[k], if closed then Some(RunEnds(cs, lastDay)[k]) else Option.None)
  {
    var n := |cs|;
    if k < n - 1 {
      assert cs[..n - 1][k] == cs[k];
    }
  }

  /**
   * The contract of RebuildCycles leaves no choice: two cycle lists that
   * both meet it for the same logs and day are the same list.
   */
  lemma RebuiltUnique(logs: seq<DayLog>, today: Date, cs: seq<Cycle>, cs': seq<Cycle>)
    requires RebuiltFrom(logs, today, cs) && RebuiltFrom(logs, today, cs')
    ensures cs == cs'
  {
    if FlowDays(logs) != [] {
      RebuiltAgree(logs, today, cs, cs');
      forall k | 0 <= k < |cs| ensures cs[k] == cs'[k] {
        RebuiltCycle(logs, today, cs, k);
        RebuiltCycle(logs, today, cs', k);
      }
    }
  }
}
