/** The sidebar filter: a row is kept when each of three columns is among the chosen values. */
module Filtering {
  import opened Records

  /** The three multiselect choices: departments, priority levels and delay statuses. */
  datatype Selection = Selection(
    departments: set<string>,
    priorities: set<string>,
    delayStatuses: set<DelayFlag>)

  /** The boolean mask of the filter, for one row. */
  predicate Selected(sel: Selection, t: EnrichedTask) {
    && t.task.department in sel.departments
    && t.task.priorityLevel in sel.priorities
    && t.delayFlag in sel.delayStatuses
  }

  /** `df[mask]`: the rows the mask keeps, in table order. */
  function Filter(ts: seq<EnrichedTask>, sel: Selection): (r: seq<EnrichedTask>)
    ensures |r| <= |ts|
    ensures forall t :: t in r <==> t in ts && Selected(sel, t)
  {
    if |ts| == 0 then []
    else
      var last := ts[|ts| - 1];
      Filter(ts[..|ts| - 1], sel) + (if Selected(sel, last) then [last] else [])
  }

  /** The positions, ascending, of the rows the mask keeps. */
  function SelectedIndices(ts: seq<EnrichedTask>, sel: Selection): seq<int> {
    if |ts| == 0 then []
    else
      SelectedIndices(ts[..|ts| - 1], sel) + (if Selected(sel, ts[|ts| - 1]) then [|ts| - 1] else [])
  }

  /** The selected positions are in range, strictly increasing, and exactly those of passing rows. */
  lemma {:induction false} SelectedIndicesSpec(ts: seq<EnrichedTask>, sel: Selection)
    ensures var idx := SelectedIndices(ts, sel);
      && (forall k :: 0 <= k < |idx| ==> 0 <= idx[k] < |ts|)
      && (forall k, l :: 0 <= k < l < |idx| ==> idx[k] < idx[l])
      && (forall j :: 0 <= j < |ts| ==> (j in idx <==> Selected(sel, ts[j])))
  {
    if |ts| > 0 {
      var p := ts[..|ts| - 1];
      SelectedIndicesSpec(p, sel);
      var idx := SelectedIndices(ts, sel);
      var pidx := SelectedIndices(p, sel);
      assert forall k :: 0 <= k < |pidx| ==> idx[k] == pidx[k];
      forall j | 0 <= j < |ts|
        ensures j in idx <==> Selected(sel, ts[j])
      {
        if j < |ts| - 1 {
          assert ts[j] == p[j];
          assert j in idx <==> j in pidx;
        }
      }
    }
  }

  /** The k-th kept row is the row at the k-th selected position. */
  lemma {:induction false} FilterAtSelectedIndices(ts: seq<EnrichedTask>, sel: Selection)
    ensures var r, idx := Filter(ts, sel), SelectedIndices(ts, sel);
      |idx| == |r| && forall k :: 0 <= k < |idx| ==> 0 <= idx[k] < |ts| && r[k] == ts[idx[k]]
  {
    if |ts| > 0 {
      var p := ts[..|ts| - 1];
      FilterAtSelectedIndices(p, sel);
      var idx := SelectedIndices(ts, sel);
      var pidx := SelectedIndices(p, sel);
      assert forall k :: 0 <= k < |pidx| ==> idx[k] == pidx[k] && ts[pidx[k]] == p[pidx[k]];
    }
  }

  /**
   * The filtered table is exactly the rows at the selected positions, in
   * increasing order of position, and a position is selected if and only if
   * its row passes the mask.
   */
  lemma {:induction false} FilterIsSelectedSubsequence(ts: seq<EnrichedTask>, sel: Selection)
    ensures var r, idx := Filter(ts, sel), SelectedIndices(ts, sel);
      && |idx| == |r|
      && (forall k :: 0 <= k < |idx| ==> 0 <= idx[k] < |ts| && r[k] == ts[idx[k]])
      && (forall k, l :: 0 <= k < l < |idx| ==> idx[k] < idx[l])
      && (forall j :: 0 <= j < |ts| ==> (j in idx <==> Selected(sel, ts[j])))
  {
    SelectedIndicesSpec(ts, sel);
    FilterAtSelectedIndices(ts, sel);
  }

  /** When every row passes the mask, filtering returns the table unchanged. */
  lemma {:induction false} FilterKeepsAll(ts: seq<EnrichedTask>, sel: Selection)
    requires forall i :: 0 <= i < |ts| ==> Selected(sel, ts[i])
    ensures Filter(ts, sel) == ts
  {
    if |ts| > 0 {
      FilterKeepsAll(ts[..|ts| - 1], sel);
      assert ts == ts[..|ts| - 1] + [ts[|ts| - 1]];
    }
  }

  /** The default of every multiselect: all values observed in the table. */
  function DefaultSelection(ts: seq<EnrichedTask>): (sel: Selection)
    ensures forall i :: 0 <= i < |ts| ==> Selected(sel, ts[i])
  {
    Selection(
      set i | 0 <= i < |ts| :: ts[i].task.department,
      set i | 0 <= i < |ts| :: ts[i].task.priorityLevel,
      set i | 0 <= i < |ts| :: ts[i].delayFlag)
  }

  /** With the default selection in every dimension the filter is the identity. */
  lemma {:induction false} DefaultSelectionKeepsAll(ts: seq<EnrichedTask>)
    ensures Filter(ts, DefaultSelection(ts)) == ts
  {
    FilterKeepsAll(ts, DefaultSelection(ts));
  }

  /** Selecting nothing in any one dimension keeps no row. */
  lemma {:induction false} EmptyChoiceKeepsNone(ts: seq<EnrichedTask>, sel: Selection)
    requires sel.departments == {} || sel.priorities == {} || sel.delayStatuses == {}
    ensures Filter(ts, sel) == []
  {
    if |ts| > 0 {
      EmptyChoiceKeepsNone(ts[..|ts| - 1], sel);
    }
  }

  /** Filtering twice with the same selection changes nothing the second time. */
  lemma {:induction false} FilterIdempotent(ts: seq<EnrichedTask>, sel: Selection)
    ensures Filter(Filter(ts, sel), sel) == Filter(ts, sel)
  {
    var r := Filter(ts, sel);
    assert forall i :: 0 <= i < |r| ==> r[i] in r;
    FilterKeepsAll(r, sel);
  }
}
