/**
 * `generate_insights`: a fixed, ordered list of up to four recommendations
 * drawn from the filtered rows.
 */
module Insights {
  import opened Wrappers
  import opened Strings
  import opened Records
  import opened Grouping
  import opened Ranking
  import opened Kpis
  import opened Workload

  const HighPriority := "High"

  /** One recommendation; the message texts are reduced to their payload. */
  datatype Insight =
    | HighDelayRate
    | CostliestDepartment(department: string)
    | OverloadedEmployee(employee: string)
    | HighPriorityDelays

  /** `idxmax` over a group-by of no rows raises. */
  datatype InsightError = EmptyArgMax

  /** Rule 1: the delayed fraction exceeds 0.3, compared without division. */
  predicate HighDelayRateFires(ts: seq<EnrichedTask>) {
    10 * DelayedCount(ts) > 3 * |ts|
  }

  /** Rule 1 fires exactly when the delay percentage shown on the page exceeds 30. */
  lemma HighDelayRateIffPercent(ts: seq<EnrichedTask>)
    ensures HighDelayRateFires(ts) <==> DelayPercent(ts) > 30.0
  {
    if |ts| > 0 {
      PercentAboveThirty(DelayedCount(ts) as real, |ts| as real);
    }
  }

  lemma PercentAboveThirty(d: real, n: real)
    requires n > 0.0
    ensures 100.0 * d / n > 30.0 <==> 10.0 * d > 3.0 * n
  {
    var p := 100.0 * d / n;
    assert p * n == 100.0 * d;
    if p > 30.0 {
      assert (p - 30.0) * n > 0.0;
    } else {
      assert (30.0 - p) * n >= 0.0;
    }
  }

  predicate HighPriorityDelayed(t: EnrichedTask) {
    t.task.priorityLevel == HighPriority && t.delayFlag == Delayed
  }

  /** `len(data[(Priority_Level == "High") & (Delay_Flag == "Delayed")])`. */
  function HighPriorityDelayCount(ts: seq<EnrichedTask>): nat {
    if |ts| == 0 then 0
    else HighPriorityDelayCount(ts[..|ts| - 1]) + (if HighPriorityDelayed(ts[|ts| - 1]) then 1 else 0)
  }

  /** Rule 4 fires exactly when some row is both high priority and delayed. */
  lemma {:induction false} HighPriorityDelayCountSpec(ts: seq<EnrichedTask>)
    ensures HighPriorityDelayCount(ts) > 0 <==> exists i :: 0 <= i < |ts| && HighPriorityDelayed(ts[i])
  {
    if |ts| > 0 {
      var p := ts[..|ts| - 1];
      HighPriorityDelayCountSpec(p);
      if exists i :: 0 <= i < |ts| && HighPriorityDelayed(ts[i]) {
        var i :| 0 <= i < |ts| && HighPriorityDelayed(ts[i]);
        if i < |p| { assert p[i] == ts[i]; }
      }
      if exists i :: 0 <= i < |p| && HighPriorityDelayed(p[i]) {
        var i :| 0 <= i < |p| && HighPriorityDelayed(p[i]);
        assert ts[i] == p[i];
      }
    }
  }

  /** The mean `Cost_Per_Task` of a department's rows. */
  function MeanCost(ts: seq<EnrichedTask>, department: string): real {
    var c := CountWhere(ts, ByDepartment, department);
    if c == 0 then 0.0 else SumWhere(ts, ByDepartment, CostPerTask, department) as real / c as real
  }

  /**
   * `d` is a department of the rows with the largest mean cost, and every
   * department whose name sorts before it has a strictly smaller mean.
   */
  ghost predicate IsCostliestDepartment(ts: seq<EnrichedTask>, d: string) {
    && CountWhere(ts, ByDepartment, d) > 0
    && forall d' :: CountWhere(ts, ByDepartment, d') > 0 ==>
         MeanCost(ts, d') <= MeanCost(ts, d) && (Less(d', d) ==> MeanCost(ts, d') < MeanCost(ts, d))
  }

  /**
   * `e` is an employee of the rows with the largest workload, and every
   * employee whose name sorts before it has a strictly smaller one.
   */
  ghost predicate IsMostLoadedEmployee(ts: seq<EnrichedTask>, e: string) {
    && CountWhere(ts, ByEmployee, e) > 0
    && forall e' :: CountWhere(ts, ByEmployee, e') > 0 ==>
         WorkloadOf(ts, e') <= WorkloadOf(ts, e) && (Less(e', e) ==> WorkloadOf(ts, e') < WorkloadOf(ts, e))
  }

  /** Rule 2: `groupby("Department")["Cost_Per_Task"].mean().idxmax()`. */
  function CostliestDepartmentOf(ts: seq<EnrichedTask>): string
    requires |ts| > 0
  {
    GroupBySpec(ts, ByDepartment, CostPerTask);
    var gs := GroupBy(ts, ByDepartment, CostPerTask);
    gs[ArgMaxMean(gs)].key
  }

  /** Rule 3: `groupby("Assigned_Employee")["Actual_Duration"].sum().idxmax()`. */
  function MostLoadedEmployeeOf(ts: seq<EnrichedTask>): string
    requires |ts| > 0
  {
    GroupBySpec(ts, ByEmployee, ActualDuration);
    var gs := EmployeeWorkload(ts);
    gs[ArgMaxTotal(gs)].key
  }

  /** In key-ascending groups, a group whose key sorts first sits earlier. */
  lemma {:induction false} EarlierKeyEarlierIndex(gs: seq<Group>, i: nat, j: nat)
    requires KeysAscending(gs) && i < |gs| && j < |gs|
    requires Less(gs[j].key, gs[i].key)
    ensures j < i
  {
    if j == i {
      LessIrreflexive(gs[i].key);
    } else if i < j {
      LessAsymmetric(gs[i].key, gs[j].key);
    }
  }

  lemma {:induction false} CostliestDepartmentSpec(ts: seq<EnrichedTask>)
    requires |ts| > 0
    ensures IsCostliestDepartment(ts, CostliestDepartmentOf(ts))
  {
    var gs := GroupBy(ts, ByDepartment, CostPerTask);
    GroupBySpec(ts, ByDepartment, CostPerTask);
    var i := ArgMaxMean(gs);
    var d := gs[i].key;
    assert MeanCost(ts, d) == Mean(gs[i]);
    forall d' | CountWhere(ts, ByDepartment, d') > 0
      ensures MeanCost(ts, d') <= MeanCost(ts, d)
      ensures Less(d', d) ==> MeanCost(ts, d') < MeanCost(ts, d)
    {
      var j := GroupPosition(ts, ByDepartment, CostPerTask, d');
      assert MeanCost(ts, d') == Mean(gs[j]);
      if Less(d', d) {
        EarlierKeyEarlierIndex(gs, i, j);
      }
    }
  }

  lemma {:induction false} MostLoadedEmployeeSpec(ts: seq<EnrichedTask>)
    requires |ts| > 0
    ensures IsMostLoadedEmployee(ts, MostLoadedEmployeeOf(ts))
  {
    var gs := EmployeeWorkload(ts);
    GroupBySpec(ts, ByEmployee, ActualDuration);
    var i := ArgMaxTotal(gs);
    var e := gs[i].key;
    forall e' | CountWhere(ts, ByEmployee, e') > 0
      ensures WorkloadOf(ts, e') <= WorkloadOf(ts, e)
      ensures Less(e', e) ==> WorkloadOf(ts, e') < WorkloadOf(ts, e)
    {
      var j := GroupPosition(ts, ByEmployee, ActualDuration, e');
      if Less(e', e) {
        EarlierKeyEarlierIndex(gs, i, j);
      }
    }
  }

  /** At most one department satisfies rule 2's description. */
  lemma CostliestDepartmentUnique(ts: seq<EnrichedTask>, a: string, b: string)
    requires IsCostliestDepartment(ts, a) && IsCostliestDepartment(ts, b)
    ensures a == b
  {
    LessTrichotomy(a, b);
  }

  /** At most one employee satisfies rule 3's description. */
  lemma MostLoadedEmployeeUnique(ts: seq<EnrichedTask>, a: string, b: string)
    requires IsMostLoadedEmployee(ts, a) && IsMostLoadedEmployee(ts, b)
    ensures a == b
  {
    LessTrichotomy(a, b);
  }

  /** The recommendations, or the error `idxmax` raises when there are no rows. */
  function GenerateInsights(ts: seq<EnrichedTask>): Result<seq<Insight>, InsightError> {
    if |ts| == 0 then Failure(EmptyArgMax)
    else
      var first := if HighDelayRateFires(ts) then [HighDelayRate] else [];
      var last := if HighPriorityDelayCount(ts) > 0 then [HighPriorityDelays] else [];
      Success(first + [CostliestDepartment(CostliestDepartmentOf(ts)), OverloadedEmployee(MostLoadedEmployeeOf(ts))] + last)
  }

  /** The recommendations the rules describe, for a given rule-2 and rule-3 choice. */
  ghost function DescribedInsights(ts: seq<EnrichedTask>, d: string, e: string): seq<Insight> {
    (if DelayPercent(ts) > 30.0 then [HighDelayRate] else [])
      + [CostliestDepartment(d), OverloadedEmployee(e)]
      + (if exists i :: 0 <= i < |ts| && HighPriorityDelayed(ts[i]) then [HighPriorityDelays] else [])
  }

  /**
   * No rows is an error; otherwise the list is rule 1 when the delay
   * percentage exceeds 30, then the costliest department, then the most loaded
   * employee, then rule 4 when some high-priority row is delayed. The
   * department and the employee are the only ones fitting their description.
   */
  lemma {:induction false} GenerateInsightsSpec(ts: seq<EnrichedTask>)
    ensures GenerateInsights(ts).Failure? <==> |ts| == 0
    ensures |ts| > 0 ==> exists d, e :: IsCostliestDepartment(ts, d) && IsMostLoadedEmployee(ts, e)
    ensures forall d, e :: IsCostliestDepartment(ts, d) && IsMostLoadedEmployee(ts, e) ==>
      GenerateInsights(ts) == Success(DescribedInsights(ts, d, e))
  {
    if |ts| > 0 {
      CostliestDepartmentSpec(ts);
      MostLoadedEmployeeSpec(ts);
      HighDelayRateIffPercent(ts);
      HighPriorityDelayCountSpec(ts);
      forall d, e | IsCostliestDepartment(ts, d) && IsMostLoadedEmployee(ts, e)
        ensures GenerateInsights(ts) == Success(DescribedInsights(ts, d, e))
      {
        CostliestDepartmentUnique(ts, d, CostliestDepartmentOf(ts));
        MostLoadedEmployeeUnique(ts, e, MostLoadedEmployeeOf(ts));
      }
    }
  }
}
