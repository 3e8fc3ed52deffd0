/**
 * The workload chart's data: `groupby("Assigned_Employee")["Actual_Duration"].sum()`,
 * sorted by that sum in descending order, first ten rows.
 */
module Workload {
  import opened Records
  import opened Grouping
  import opened Ranking

  /** How many employees the chart shows. */
  const TopCount := 10

  /** Total `Actual_Duration` of an employee's rows, missing durations adding nothing. */
  function WorkloadOf(ts: seq<EnrichedTask>, employee: string): int {
    SumWhere(ts, ByEmployee, ActualDuration, employee)
  }

  function EmployeeWorkload(ts: seq<EnrichedTask>): seq<Group> {
    GroupBy(ts, ByEmployee, ActualDuration)
  }

  function TopWorkload(ts: seq<EnrichedTask>): seq<Group> {
    Top(EmployeeWorkload(ts), TopCount)
  }

  lemma {:induction false} AscendingIsDistinct(gs: seq<Group>)
    requires KeysAscending(gs)
    ensures DistinctKeys(gs)
  {
    forall i, j | 0 <= i < j < |gs| ensures gs[i].key != gs[j].key {
      Strings.LessIrreflexive(gs[i].key);
    }
  }

  /** Each listed employee has rows, and is listed with the sum of their durations. */
  lemma {:induction false} TopWorkloadEntries(ts: seq<EnrichedTask>)
    ensures var r := TopWorkload(ts);
      forall k :: 0 <= k < |r| ==>
        CountWhere(ts, ByEmployee, r[k].key) > 0 && r[k].total == WorkloadOf(ts, r[k].key)
  {
    var gs := EmployeeWorkload(ts);
    var r := TopWorkload(ts);
    GroupBySpec(ts, ByEmployee, ActualDuration);
    TopMembers(gs, TopCount);
    forall k | 0 <= k < |r|
      ensures CountWhere(ts, ByEmployee, r[k].key) > 0 && r[k].total == WorkloadOf(ts, r[k].key)
    {
      assert r[k] in r;
      var j :| 0 <= j < |gs| && gs[j] == r[k];
    }
  }

  /**
   * The chart lists fewer than ten employees only when it lists every one, and
   * an employee it leaves out has a workload no larger than the last one listed.
   */
  lemma {:induction false} TopWorkloadCoverage(ts: seq<EnrichedTask>, i: int)
    requires 0 <= i < |ts|
    ensures var r, e := TopWorkload(ts), ts[i].task.assignedEmployee;
      && (|r| < TopCount ==> e in KeySet(r))
      && (e in KeySet(r) || WorkloadOf(ts, e) <= r[|r| - 1].total)
  {
    var gs := EmployeeWorkload(ts);
    var r := TopWorkload(ts);
    var e := ts[i].task.assignedEmployee;
    assert KeyOf(ByEmployee, ts[i]) == e;
    CountWhereSpec(ts, ByEmployee, e);
    GroupByFind(ts, ByEmployee, ActualDuration, e);
    FindSpec(gs, e);
    var g := Find(gs, e).value;
    assert g.key == e && g.total == WorkloadOf(ts, e) && g in gs;
    TopLength(gs, TopCount);
    if |gs| <= TopCount {
      TopKeepsAllWhenShort(gs, TopCount);
    }
    if g in r {
      var k :| 0 <= k < |r| && r[k] == g;
      assert r[k].key == e;
    } else {
      TopOmittedNotLarger(gs, TopCount);
    }
  }

  /**
   * The chart lists at most ten distinct employees who have rows, each with
   * the sum of their durations, in non-increasing order of that sum; it is
   * empty only when there are no rows.
   */
  lemma {:induction false} TopWorkloadSpec(ts: seq<EnrichedTask>)
    ensures var r := TopWorkload(ts);
      && |r| <= TopCount
      && (|r| > 0 <==> |ts| > 0)
      && NonIncreasing(r)
      && DistinctKeys(r)
  {
    var gs := EmployeeWorkload(ts);
    GroupBySpec(ts, ByEmployee, ActualDuration);
    AscendingIsDistinct(gs);
    TopLength(gs, TopCount);
    TopDescending(gs, TopCount);
    TopDistinct(gs, TopCount);
  }
}
