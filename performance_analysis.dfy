/**
 * `generatePerformanceReport`: the metrics, insights and label for a user's
 * trades, with the empty-input branch, and the upsert of the cached report.
 *
 * The trades and strategies the source fetches from the database are
 * parameters. The cache write is returned as a value instead of being
 * performed; the source swallows its errors, so its outcome never affects
 * the report.
 */
module PerformanceAnalysis {
  import opened TradeData
  import opened PerformanceMetrics
  import opened PerformanceScore
  import opened PerformanceInsights

  datatype Report = Report(metrics: Metrics, insights: seq<Insight>, performanceLabel: PerformanceLabel)

  /** The row `cacheReport` upserts into `user_performance_reports`. */
  datatype CacheWrite = CacheWrite(userId: string, reportData: Metrics, performanceLabel: PerformanceLabel, tradesAnalyzed: nat)

  /** The fixed answer for a user without trades. */
  function EmptyReport(): Report {
    Report(EmptyMetrics(), [Insight(Neutral, StartTrading)], Improving)
  }

  /** The report for a non-empty trade list. */
  function ReportOf(ts: seq<Trade>, ss: seq<Strategy>): Report {
    var m := MetricsOf(ts, ss);
    Report(m, Insights(m), LabelOf(Score(m, |ts|)))
  }

  method GeneratePerformanceReport(userId: string, ts: seq<Trade>, ss: seq<Strategy>)
    returns (report: Report, cache: Option<CacheWrite>)
    ensures ts == [] ==> report == EmptyReport() && cache == None
    ensures ts != [] ==> report == ReportOf(ts, ss)
    ensures ts != [] ==> cache == Some(CacheWrite(userId, report.metrics, report.performanceLabel, |ts|))
  {
    if |ts| == 0 {
      return EmptyReport(), None;
    }
    var metrics := CalculateMetrics(ts, ss);
    var insights := GenerateInsights(metrics);
    var performanceLabel := CalculatePerformanceLabel(metrics, |ts|);
    cache := Some(CacheWrite(userId, metrics, performanceLabel, |ts|));
    report := Report(metrics, insights, performanceLabel);
  }

  /**
   * The empty branch has the all-zero metrics, exactly one neutral insight
   * and the label Improving; scoring those metrics instead would give
   * 15 points (all of them for consistency) and the label Declining.
   */
  lemma EmptyReportFacts()
    ensures |EmptyReport().insights| == 1 && EmptyReport().insights[0].kind == Neutral
    ensures EmptyReport().performanceLabel == Improving
    ensures Score(EmptyMetrics(), 0) == 15.0
    ensures LabelOf(Score(EmptyMetrics(), 0)) == Declining
  {
    assert MonthlyVariance([]) == 0.0;
  }

  /** A report for at least one trade always scores and labels from bounded metrics. */
  lemma NonEmptyReportFacts(ts: seq<Trade>, ss: seq<Strategy>)
    requires ts != []
    ensures var r := ReportOf(ts, ss);
      && r.metrics.totalTrades == |ts|
      && 0.0 <= r.metrics.winRate <= 100.0
      && 1 <= |r.insights| <= 4
      && r.insights[0] == WinRateInsight(r.metrics.winRate)
      && 0.0 <= Score(r.metrics, |ts|) <= 100.0
      && r.performanceLabel == LabelOf(Score(r.metrics, |ts|))
  {
    MetricsBounds(ts, ss);
    MetricsScoreBounds(ts, ss);
    InsightsShape(MetricsOf(ts, ss));
  }
}
