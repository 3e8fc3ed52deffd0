/** The four key performance indicators shown over the filtered rows. */
module Kpis {
  import opened Wrappers
  import opened Records
  import opened Grouping

  /** Number of rows flagged Delayed. */
  function DelayedCount(ts: seq<EnrichedTask>): nat {
    if |ts| == 0 then 0
    else DelayedCount(ts[..|ts| - 1]) + (if ts[|ts| - 1].delayFlag == Delayed then 1 else 0)
  }

  lemma {:induction false} DelayedCountSpec(ts: seq<EnrichedTask>)
    ensures DelayedCount(ts) <= |ts|
    ensures DelayedCount(ts) == 0 <==> forall i :: 0 <= i < |ts| ==> ts[i].delayFlag == OnTime
    ensures DelayedCount(ts) == |ts| <==> forall i :: 0 <= i < |ts| ==> ts[i].delayFlag == Delayed
  {
    if |ts| > 0 {
      var p := ts[..|ts| - 1];
      DelayedCountSpec(p);
      assert forall i :: 0 <= i < |p| ==> p[i] == ts[i];
    }
  }

  /**
   * `value_counts(normalize=True).get('Delayed', 0) * 100`: the share of
   * Delayed rows as a percentage, 0 when there are no rows.
   */
  function DelayPercent(ts: seq<EnrichedTask>): (p: real)
    ensures 0.0 <= p <= 100.0
    ensures |ts| == 0 ==> p == 0.0
    ensures p == 0.0 <==> forall i :: 0 <= i < |ts| ==> ts[i].delayFlag == OnTime
    ensures p == 100.0 <==> |ts| > 0 && forall i :: 0 <= i < |ts| ==> ts[i].delayFlag == Delayed
  {
    DelayedCountSpec(ts);
    if |ts| == 0 then 0.0
    else
      PercentRange(DelayedCount(ts), |ts|);
      100.0 * DelayedCount(ts) as real / |ts| as real
  }

  lemma PercentRange(d: nat, n: nat)
    requires 0 < n && d <= n
    ensures var p := 100.0 * d as real / n as real;
      && 0.0 <= p <= 100.0
      && (p == 0.0 <==> d == 0)
      && (p == 100.0 <==> d == n)
  {
    var p := 100.0 * d as real / n as real;
    assert p * n as real == 100.0 * d as real;
  }

  /** Sum of `Cost_Per_Task` over the rows. */
  function TotalCost(ts: seq<EnrichedTask>): int {
    SumAll(ts, CostPerTask)
  }

  lemma {:induction false} TotalCostAppend(a: seq<EnrichedTask>, b: seq<EnrichedTask>)
    ensures TotalCost(a + b) == TotalCost(a) + TotalCost(b)
    decreases |b|
  {
    if |b| == 0 {
      assert a + b == a;
    } else {
      assert (a + b)[..|a + b| - 1] == a + b[..|b| - 1];
      TotalCostAppend(a, b[..|b| - 1]);
    }
  }

  /** The total cost is the sum of the per-department cost totals. */
  lemma {:induction false} TotalCostIsSumOfDepartments(ts: seq<EnrichedTask>)
    ensures TotalCost(ts) == TotalOfGroups(GroupBy(ts, ByDepartment, CostPerTask))
  {
    GroupsPartitionRows(ts, ByDepartment, CostPerTask);
  }

  /** Number of rows whose `Actual_Duration` is present. */
  function PresentCount(ts: seq<EnrichedTask>): nat {
    if |ts| == 0 then 0
    else PresentCount(ts[..|ts| - 1]) + (if ts[|ts| - 1].task.actualDuration.Some? then 1 else 0)
  }

  lemma {:induction false} PresentCountZero(ts: seq<EnrichedTask>)
    ensures PresentCount(ts) == 0 <==> forall i :: 0 <= i < |ts| ==> ts[i].task.actualDuration.None?
  {
    if |ts| > 0 {
      var p := ts[..|ts| - 1];
      PresentCountZero(p);
      assert forall i :: 0 <= i < |p| ==> p[i] == ts[i];
    }
  }

  /** `Actual_Duration.mean()`, exactly: missing values are skipped, NaN (None) when none is present. */
  function MeanActualDuration(ts: seq<EnrichedTask>): (r: Option<real>)
    ensures r.None? <==> forall i :: 0 <= i < |ts| ==> ts[i].task.actualDuration.None?
  {
    PresentCountZero(ts);
    if PresentCount(ts) == 0 then None
    else Some(SumAll(ts, ActualDuration) as real / PresentCount(ts) as real)
  }

  lemma {:induction false} PresentSumAtLeast(ts: seq<EnrichedTask>, lo: int)
    requires forall i :: 0 <= i < |ts| && ts[i].task.actualDuration.Some? ==>
      lo <= ts[i].task.actualDuration.value
    ensures lo * PresentCount(ts) <= SumAll(ts, ActualDuration)
  {
    if |ts| > 0 {
      var p := ts[..|ts| - 1];
      assert forall i :: 0 <= i < |p| ==> p[i] == ts[i];
      PresentSumAtLeast(p, lo);
      var c := PresentCount(p);
      assert lo * (c + 1) == lo * c + lo;
    }
  }

  lemma {:induction false} PresentSumAtMost(ts: seq<EnrichedTask>, hi: int)
    requires forall i :: 0 <= i < |ts| && ts[i].task.actualDuration.Some? ==>
      ts[i].task.actualDuration.value <= hi
    ensures SumAll(ts, ActualDuration) <= hi * PresentCount(ts)
  {
    if |ts| > 0 {
      var p := ts[..|ts| - 1];
      assert forall i :: 0 <= i < |p| ==> p[i] == ts[i];
      PresentSumAtMost(p, hi);
      var c := PresentCount(p);
      assert hi * (c + 1) == hi * c + hi;
    }
  }

  /** The mean lies between any bounds on the present durations. */
  lemma {:induction false} MeanWithinBounds(ts: seq<EnrichedTask>, lo: int, hi: int)
    requires forall i :: 0 <= i < |ts| && ts[i].task.actualDuration.Some? ==>
      lo <= ts[i].task.actualDuration.value <= hi
    ensures MeanActualDuration(ts).Some? ==>
      lo as real <= MeanActualDuration(ts).value <= hi as real
  {
    if PresentCount(ts) > 0 {
      PresentSumAtLeast(ts, lo);
      PresentSumAtMost(ts, hi);
      var s, c := SumAll(ts, ActualDuration), PresentCount(ts);
      RatioBetween(s, c, lo, hi);
      assert MeanActualDuration(ts) == Some(s as real / c as real);
    }
  }

  lemma DivideBounds(s: real, c: real, lo: real, hi: real)
    requires c > 0.0
    requires lo * c <= s <= hi * c
    ensures lo <= s / c <= hi
  {
    assert s / c * c == s;
  }

  lemma RatioBetween(s: int, c: int, lo: int, hi: int)
    requires c > 0
    requires lo * c <= s <= hi * c
    ensures lo as real <= s as real / c as real <= hi as real
  {
    assert (lo * c) as real == lo as real * c as real;
    assert (hi * c) as real == hi as real * c as real;
    DivideBounds(s as real, c as real, lo as real, hi as real);
  }

  /** The KPI row of the dashboard. */
  datatype Indicators = Indicators(
    totalTasks: nat,
    avgActualDuration: Option<real>,
    totalCost: int,
    delayPercent: real)

  function ComputeIndicators(ts: seq<EnrichedTask>): (k: Indicators)
    ensures k.totalTasks == |ts|
    ensures k.avgActualDuration == MeanActualDuration(ts)
    ensures k.totalCost == TotalCost(ts)
    ensures k.delayPercent == DelayPercent(ts)
    ensures k.totalTasks == 0 ==> k.avgActualDuration.None? && k.totalCost == 0 && k.delayPercent == 0.0
    ensures 0.0 <= k.delayPercent <= 100.0
  {
    Indicators(|ts|, MeanActualDuration(ts), TotalCost(ts), DelayPercent(ts))
  }
}
