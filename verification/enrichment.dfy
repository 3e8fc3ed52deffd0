/** The cleaning and feature-derivation step applied once to the loaded table. */
module Enrichment {
  import opened Wrappers
  import opened Records
  import opened EmployeeId

  /** The value `fillna` writes into a missing `Approval_Level`. */
  const NotRequired := "Not Required"

  /** `Actual_Duration - Estimated_Duration`; NaN (None) when either side is missing. */
  function DurationDifference(actual: Option<int>, estimated: Option<int>): Option<int> {
    if actual.Some? && estimated.Some? then Some(actual.value - estimated.value) else None
  }

  /** `np.where(diff > 0, "Delayed", "On-Time")`: NaN compares false, so it is On-Time. */
  function DelayFlagOf(diff: Option<int>): DelayFlag {
    if diff.Some? && diff.value > 0 then Delayed else OnTime
  }

  /** One row through the cleaning step. */
  function EnrichTask(t: Task): (e: EnrichedTask)
    ensures e.task.approvalLevel == if t.approvalLevel.Some? then t.approvalLevel else Some(NotRequired)
    ensures e.task.(approvalLevel := t.approvalLevel) == t
    ensures e.employeeIdNumber == EmployeeIdNumber(t.assignedEmployee)
    ensures e.durationDifference.Some? <==> t.actualDuration.Some? && t.estimatedDuration.Some?
    ensures e.durationDifference.Some? ==>
      e.durationDifference.value == t.actualDuration.value - t.estimatedDuration.value
    ensures e.delayFlag == Delayed <==>
      t.actualDuration.Some? && t.estimatedDuration.Some? &&
      t.actualDuration.value > t.estimatedDuration.value
  {
    var diff := DurationDifference(t.actualDuration, t.estimatedDuration);
    EnrichedTask(
      t.(approvalLevel := Some(t.approvalLevel.GetOr(NotRequired))),
      EmployeeIdNumber(t.assignedEmployee),
      diff,
      DelayFlagOf(diff))
  }

  /** The whole table through the cleaning step, row by row. */
  function Enrich(ts: seq<Task>): (es: seq<EnrichedTask>)
    ensures |es| == |ts|
    ensures forall i :: 0 <= i < |ts| ==> es[i] == EnrichTask(ts[i])
  {
    if |ts| == 0 then [] else Enrich(ts[..|ts| - 1]) + [EnrichTask(ts[|ts| - 1])]
  }

  /** What every enriched row satisfies: the flag is a function of the difference alone. */
  predicate WellFormed(e: EnrichedTask) {
    && e.task.approvalLevel.Some?
    && e.durationDifference == DurationDifference(e.task.actualDuration, e.task.estimatedDuration)
    && e.delayFlag == DelayFlagOf(e.durationDifference)
  }

  /**
   * An enriched row is Delayed exactly when its difference is computable and
   * positive; a zero difference and a missing duration are both On-Time.
   */
  lemma DelayedIffPositiveDifference(ts: seq<Task>, i: int)
    requires 0 <= i < |ts|
    ensures var e := Enrich(ts)[i];
      && (e.delayFlag == Delayed <==> e.durationDifference.Some? && e.durationDifference.value > 0)
      && (e.durationDifference == Some(0) ==> e.delayFlag == OnTime)
      && (e.durationDifference.None? ==> e.delayFlag == OnTime)
  {
  }

  lemma EnrichedIsWellFormed(ts: seq<Task>)
    ensures forall i :: 0 <= i < |ts| ==> WellFormed(Enrich(ts)[i])
  {
  }

  /** Enrichment works row by row, so it distributes over concatenation. */
  lemma {:induction false} EnrichAppend(a: seq<Task>, b: seq<Task>)
    ensures Enrich(a + b) == Enrich(a) + Enrich(b)
  {
    var l := Enrich(a + b);
    var r := Enrich(a) + Enrich(b);
    assert |l| == |r|;
    forall i | 0 <= i < |l| ensures l[i] == r[i] {
      if i < |a| {
        assert (a + b)[i] == a[i];
      } else {
        assert (a + b)[i] == b[i - |a|];
      }
    }
  }
}
