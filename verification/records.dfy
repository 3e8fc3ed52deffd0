/** The rows of the workflow table, before and after enrichment. */
module Records {
  import opened Wrappers

  /**
   * A parsed `Start_Time` / `End_Time`: a calendar day number and the
   * second within that day. `.dt.date` keeps only the day.
   */
  datatype Timestamp = Timestamp(day: int, secondOfDay: nat)

  /** The two values of the derived `Delay_Flag` column. */
  datatype DelayFlag = Delayed | OnTime

  /** One row of the loaded table, restricted to the columns the pipeline reads. */
  datatype Task = Task(
    startTime: Timestamp,
    endTime: Timestamp,
    department: string,
    priorityLevel: string,
    assignedEmployee: string,
    approvalLevel: Option<string>,
    estimatedDuration: Option<int>,
    actualDuration: Option<int>,
    costPerTask: int)

  /** A row after the cleaning step, carrying the three derived columns. */
  datatype EnrichedTask = EnrichedTask(
    task: Task,
    employeeIdNumber: Option<string>,
    durationDifference: Option<int>,
    delayFlag: DelayFlag)

  /** The calendar date of a row's start, `Start_Time.dt.date`. */
  function StartDate(t: EnrichedTask): int {
    t.task.startTime.day
  }
}
