/**
 * The page's data flow: enrich the loaded rows once, filter them by the
 * sidebar selection, and derive every figure from the filtered rows.
 */
module Dashboard {
  import opened Wrappers
  import opened Records
  import opened Enrichment
  import opened Filtering
  import opened Grouping
  import opened Kpis
  import opened DailyTrend
  import opened Workload
  import opened Insights

  /** Everything the page shows, before rendering. */
  datatype View = View(
    rows: seq<EnrichedTask>,
    indicators: Indicators,
    trend: map<int, map<DelayFlag, nat>>,
    workload: seq<Group>,
    insights: Result<seq<Insight>, InsightError>)

  function Render(raw: seq<Task>, sel: Selection): (v: View)
    ensures v.rows == Filter(Enrich(raw), sel)
    ensures forall t :: t in v.rows <==> t in Enrich(raw) && Selected(sel, t)
    ensures v.indicators.totalTasks == |v.rows| <= |raw|
    ensures v.trend.Keys == Dates(v.rows)
    ensures v.indicators == ComputeIndicators(v.rows)
    ensures v.trend == Trend(v.rows)
    ensures v.workload == TopWorkload(v.rows)
    ensures v.insights == GenerateInsights(v.rows)
    ensures v.insights.Failure? <==> |v.rows| == 0
  {
    var rows := Filter(Enrich(raw), sel);
    GenerateInsightsSpec(rows);
    View(rows, ComputeIndicators(rows), Trend(rows), TopWorkload(rows), GenerateInsights(rows))
  }

  /**
   * With the sidebar's defaults (every value that occurs) the page describes
   * every loaded row, and shows at least the two arg-max insights when there is one.
   */
  lemma {:induction false} DefaultViewShowsAll(raw: seq<Task>)
    ensures var v := Render(raw, DefaultSelection(Enrich(raw)));
      && v.rows == Enrich(raw)
      && v.indicators.totalTasks == |raw|
      && (|raw| > 0 ==> v.insights.Success? && |v.insights.value| >= 2)
  {
    DefaultSelectionKeepsAll(Enrich(raw));
  }
}
