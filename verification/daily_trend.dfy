/**
 * `groupby(Start_Time.dt.date)["Delay_Flag"].value_counts().unstack().fillna(0)`:
 * one row per start date, one column per delay flag present in the rows.
 */
module DailyTrend {
  import opened Records

  /** Rows starting on day `d`. */
  function RowsOn(ts: seq<EnrichedTask>, d: int): nat {
    if |ts| == 0 then 0
    else RowsOn(ts[..|ts| - 1], d) + (if StartDate(ts[|ts| - 1]) == d then 1 else 0)
  }

  /** Rows starting on day `d` and carrying flag `f`. */
  function CountOn(ts: seq<EnrichedTask>, d: int, f: DelayFlag): nat {
    if |ts| == 0 then 0
    else
      var last := ts[|ts| - 1];
      CountOn(ts[..|ts| - 1], d, f) + (if StartDate(last) == d && last.delayFlag == f then 1 else 0)
  }

  function Dates(ts: seq<EnrichedTask>): set<int> {
    set i | 0 <= i < |ts| :: StartDate(ts[i])
  }

  /** The columns `unstack` produces: only flags that occur somewhere in the rows. */
  function FlagsPresent(ts: seq<EnrichedTask>): set<DelayFlag> {
    set i | 0 <= i < |ts| :: ts[i].delayFlag
  }

  /** The trend table, a missing (date, flag) combination filled with 0. */
  function Trend(ts: seq<EnrichedTask>): (m: map<int, map<DelayFlag, nat>>)
    ensures m.Keys == Dates(ts)
    ensures forall d :: d in m ==> m[d].Keys == FlagsPresent(ts)
    ensures forall d, f :: d in m && f in m[d] ==> m[d][f] == CountOn(ts, d, f)
  {
    map d | d in Dates(ts) :: map f | f in FlagsPresent(ts) :: CountOn(ts, d, f)
  }

  /** A cell of the trend table, 0 for a column that does not exist. */
  function Cell(row: map<DelayFlag, nat>, f: DelayFlag): nat {
    if f in row then row[f] else 0
  }

  lemma {:induction false} CountsSplitByFlag(ts: seq<EnrichedTask>, d: int)
    ensures CountOn(ts, d, Delayed) + CountOn(ts, d, OnTime) == RowsOn(ts, d)
  {
    if |ts| > 0 {
      CountsSplitByFlag(ts[..|ts| - 1], d);
    }
  }

  lemma {:induction false} AbsentFlagCountsZero(ts: seq<EnrichedTask>, d: int, f: DelayFlag)
    requires f !in FlagsPresent(ts)
    ensures CountOn(ts, d, f) == 0
  {
    if |ts| > 0 {
      var p := ts[..|ts| - 1];
      assert FlagsPresent(p) <= FlagsPresent(ts) by {
        forall g | g in FlagsPresent(p) ensures g in FlagsPresent(ts) {
          var i :| 0 <= i < |p| && p[i].delayFlag == g;
          assert ts[i] == p[i];
        }
      }
      assert ts[|ts| - 1].delayFlag in FlagsPresent(ts);
      AbsentFlagCountsZero(p, d, f);
    }
  }

  lemma {:induction false} PresentDateHasRows(ts: seq<EnrichedTask>, d: int)
    requires d in Dates(ts)
    ensures RowsOn(ts, d) > 0
  {
    var p := ts[..|ts| - 1];
    if StartDate(ts[|ts| - 1]) != d {
      var i :| 0 <= i < |ts| && StartDate(ts[i]) == d;
      assert p[i] == ts[i];
      PresentDateHasRows(p, d);
    }
  }

  /**
   * On every date in the table the Delayed and On-Time cells add up to the
   * number of rows starting that day, which is at least one.
   */
  lemma {:induction false} DailyTotals(ts: seq<EnrichedTask>)
    ensures forall d :: d in Trend(ts) ==>
      Cell(Trend(ts)[d], Delayed) + Cell(Trend(ts)[d], OnTime) == RowsOn(ts, d) > 0
  {
    var m := Trend(ts);
    forall d | d in m
      ensures Cell(m[d], Delayed) + Cell(m[d], OnTime) == RowsOn(ts, d) > 0
    {
      CountsSplitByFlag(ts, d);
      PresentDateHasRows(ts, d);
      if Delayed !in FlagsPresent(ts) { AbsentFlagCountsZero(ts, d, Delayed); }
      if OnTime !in FlagsPresent(ts) { AbsentFlagCountsZero(ts, d, OnTime); }
    }
  }

  /** A date has no row with flag `f` exactly when its count for `f` is 0. */
  lemma {:induction false} CountOnZeroIff(ts: seq<EnrichedTask>, d: int, f: DelayFlag)
    ensures CountOn(ts, d, f) == 0 <==>
      forall i :: 0 <= i < |ts| && StartDate(ts[i]) == d ==> ts[i].delayFlag != f
  {
    if |ts| > 0 {
      var p := ts[..|ts| - 1];
      CountOnZeroIff(p, d, f);
      assert forall i :: 0 <= i < |p| ==> p[i] == ts[i];
    }
  }

  /**
   * Every cell of the trend, with a missing column read as 0, is the number of
   * rows starting that day with that flag; a flag that no row of the day
   * carries reads 0 rather than being missing.
   */
  lemma {:induction false} TrendCells(ts: seq<EnrichedTask>)
    ensures forall d, f :: d in Trend(ts) ==> Cell(Trend(ts)[d], f) == CountOn(ts, d, f)
    ensures forall d, f :: d in Trend(ts) ==>
      (Cell(Trend(ts)[d], f) == 0 <==> forall i :: 0 <= i < |ts| && StartDate(ts[i]) == d ==> ts[i].delayFlag != f)
  {
    var m := Trend(ts);
    forall d, f | d in m
      ensures Cell(m[d], f) == CountOn(ts, d, f)
      ensures Cell(m[d], f) == 0 <==> forall i :: 0 <= i < |ts| && StartDate(ts[i]) == d ==> ts[i].delayFlag != f
    {
      if f !in FlagsPresent(ts) {
        AbsentFlagCountsZero(ts, d, f);
      }
      CountOnZeroIff(ts, d, f);
    }
  }
}
