/**
 * The scalar metrics of the performance analyser (`calculateMetrics` and the
 * helpers it calls): win rate, total P/L, average R:R, profit factor, average
 * holding time and the with/without-checklist split, assembled with the two
 * breakdowns into one metrics record.
 */
module PerformanceMetrics {
  import opened TradeData
  import opened StrategyBreakdown
  import opened MonthlyBreakdown

  /** `totalTrades > 0 ? (winningTrades / totalTrades) * 100 : 0` */
  function WinRate(ts: seq<Trade>): (r: real)
    ensures 0.0 <= r <= 100.0
  {
    if |ts| > 0 then
      PercentBounds(Wins(ts), |ts|);
      Percent(Wins(ts), |ts|)
    else 0.0
  }

  /** The win rate is 0 exactly when no trade is a win, and 100 exactly when every trade is. */
  lemma WinRateExtremes(ts: seq<Trade>)
    ensures WinRate(ts) == 0.0 <==> forall i :: 0 <= i < |ts| ==> !IsWin(ts[i])
    ensures WinRate(ts) == 100.0 <==> ts != [] && forall i :: 0 <= i < |ts| ==> IsWin(ts[i])
  {
    WinsExtremes(ts);
    if |ts| > 0 {
      PercentBounds(Wins(ts), |ts|);
    }
  }

  /** The sum of the positive P/L values. */
  function GrossProfit(ts: seq<Trade>): (g: real)
    ensures g >= 0.0
  {
    if ts == [] then 0.0
    else GrossProfit(DropLast(ts)) + (if ProfitLoss(Last(ts)) > 0.0 then ProfitLoss(Last(ts)) else 0.0)
  }

  /** The sum of the negative P/L values, before `Math.abs`. */
  function LossSum(ts: seq<Trade>): (l: real)
    ensures l <= 0.0
  {
    if ts == [] then 0.0
    else LossSum(DropLast(ts)) + (if ProfitLoss(Last(ts)) < 0.0 then ProfitLoss(Last(ts)) else 0.0)
  }

  function GrossLoss(ts: seq<Trade>): real {
    Abs(LossSum(ts))
  }

  /** The total P/L is the gross profit less the gross loss. */
  lemma {:induction false} PnLSplit(ts: seq<Trade>)
    ensures TotalPnL(ts) == GrossProfit(ts) - GrossLoss(ts)
  {
    if ts != [] {
      PnLSplit(DropLast(ts));
    }
  }

  /** Gross profit is 0 exactly when no trade made money, gross loss is 0 exactly when none lost. */
  lemma {:induction false} GrossZeroIff(ts: seq<Trade>)
    ensures GrossProfit(ts) == 0.0 <==> forall i :: 0 <= i < |ts| ==> ProfitLoss(ts[i]) <= 0.0
    ensures GrossLoss(ts) == 0.0 <==> forall i :: 0 <= i < |ts| ==> ProfitLoss(ts[i]) >= 0.0
  {
    if ts != [] {
      var p := DropLast(ts);
      GrossZeroIff(p);
      assert forall i :: 0 <= i < |p| ==> p[i] == ts[i];
      assert ts[|ts| - 1] == Last(ts);
    }
  }

  /** `calculateProfitFactor`, with the `999` sentinel when there are no losses but some profit. */
  function ProfitFactor(ts: seq<Trade>): (pf: real)
    ensures pf >= 0.0
  {
    var gp, gl := GrossProfit(ts), GrossLoss(ts);
    if gl > 0.0 then gp / gl else if gp > 0.0 then 999.0 else 0.0
  }

  lemma DivTimes(x: real, y: real)
    requires y > 0.0
    ensures (x / y) * y == x
    ensures x / y == 0.0 <==> x == 0.0
  {
  }

  /** With some loss, the profit factor is the ratio of gross profit to gross loss. */
  lemma ProfitFactorRatio(ts: seq<Trade>)
    requires GrossLoss(ts) > 0.0
    ensures ProfitFactor(ts) * GrossLoss(ts) == GrossProfit(ts)
  {
    DivTimes(GrossProfit(ts), GrossLoss(ts));
  }

  /** The sentinel and zero cases of the profit factor, in terms of the trades. */
  lemma ProfitFactorCases(ts: seq<Trade>)
    ensures (forall i :: 0 <= i < |ts| ==> ProfitLoss(ts[i]) >= 0.0) ==>
      (ProfitFactor(ts) == 999.0 <==> exists i :: 0 <= i < |ts| && ProfitLoss(ts[i]) > 0.0)
    ensures ProfitFactor(ts) == 0.0 <==> forall i :: 0 <= i < |ts| ==> ProfitLoss(ts[i]) <= 0.0
  {
    GrossZeroIff(ts);
    var gp, gl := GrossProfit(ts), GrossLoss(ts);
    if gl > 0.0 {
      DivTimes(gp, gl);
    }
  }

  /** `t.x && t.x > 0`: the value is recorded and strictly positive. */
  predicate Qualifies(o: Option<real>) {
    o.Some? && o.value > 0.0
  }

  function QualifyingCount(ts: seq<Trade>, f: Trade -> Option<real>): (n: nat)
    ensures n <= |ts|
  {
    if ts == [] then 0 else QualifyingCount(DropLast(ts), f) + (if Qualifies(f(Last(ts))) then 1 else 0)
  }

  /** The sum of the qualifying values: positive exactly when some value qualifies. */
  function QualifyingTotal(ts: seq<Trade>, f: Trade -> Option<real>): (total: real)
    ensures total >= 0.0
    ensures total == 0.0 <==> QualifyingCount(ts, f) == 0
  {
    if ts == [] then 0.0
    else QualifyingTotal(DropLast(ts), f) + (if Qualifies(f(Last(ts))) then f(Last(ts)).value else 0.0)
  }

  /** The mean of the strictly positive recorded values, 0 when there is none. */
  function PositiveMean(ts: seq<Trade>, f: Trade -> Option<real>): (r: real)
    ensures r >= 0.0
  {
    var n := QualifyingCount(ts, f);
    if n > 0 then QualifyingTotal(ts, f) / n as real else 0.0
  }

  lemma {:induction false} QualifyingCountZeroIff(ts: seq<Trade>, f: Trade -> Option<real>)
    ensures QualifyingCount(ts, f) == 0 <==> forall i :: 0 <= i < |ts| ==> !Qualifies(f(ts[i]))
  {
    if ts != [] {
      var p := DropLast(ts);
      QualifyingCountZeroIff(p, f);
      assert forall i :: 0 <= i < |p| ==> p[i] == ts[i];
      assert ts[|ts| - 1] == Last(ts);
    }
  }

  /** The mean is positive exactly when some trade has a positive value, and 0 otherwise. */
  lemma PositiveMeanSign(ts: seq<Trade>, f: Trade -> Option<real>)
    ensures PositiveMean(ts, f) > 0.0 <==> exists i :: 0 <= i < |ts| && Qualifies(f(ts[i]))
    ensures PositiveMean(ts, f) == 0.0 <==> forall i :: 0 <= i < |ts| ==> !Qualifies(f(ts[i]))
  {
    QualifyingCountZeroIff(ts, f);
  }

  /** A trade whose value is missing, zero or negative does not move the mean. */
  lemma PositiveMeanIgnores(ts: seq<Trade>, t: Trade, f: Trade -> Option<real>)
    requires !Qualifies(f(t))
    ensures PositiveMean(ts + [t], f) == PositiveMean(ts, f)
  {
    DropLastAppend(ts, t);
  }

  /** `b` added up `k` times: `k * b` without the product, so that inductions stay linear. */
  function Scaled(k: nat, b: real): real {
    if k == 0 then 0.0 else Scaled(k - 1, b) + b
  }

  lemma {:induction false} ScaledIsProduct(k: nat, b: real)
    ensures Scaled(k, b) == k as real * b
  {
    if k > 0 {
      ScaledIsProduct(k - 1, b);
      MulAddOne((k - 1) as real, b);
    }
  }

  lemma {:induction false} QualifyingTotalAtMost(ts: seq<Trade>, f: Trade -> Option<real>, b: real)
    requires forall i :: 0 <= i < |ts| && Qualifies(f(ts[i])) ==> f(ts[i]).value <= b
    ensures QualifyingTotal(ts, f) <= Scaled(QualifyingCount(ts, f), b)
  {
    if ts != [] {
      var p, t := DropLast(ts), Last(ts);
      assert forall i :: 0 <= i < |p| ==> p[i] == ts[i];
      QualifyingTotalAtMost(p, f, b);
      if Qualifies(f(t)) {
        assert ts[|ts| - 1] == t;
      }
    }
  }

  lemma DivBelow(total: real, n: real, b: real)
    requires n > 0.0 && total <= n * b
    ensures total / n <= b
  {
    var m := total / n;
    assert m * n == total;
    if m > b {
      assert (m - b) * n > 0.0;
      assert m * n - b * n > 0.0;
    }
  }

  /** The mean never exceeds a bound that every qualifying value respects. */
  lemma PositiveMeanAtMost(ts: seq<Trade>, f: Trade -> Option<real>, b: real)
    requires forall i :: 0 <= i < |ts| && Qualifies(f(ts[i])) ==> f(ts[i]).value <= b
    requires b >= 0.0
    ensures PositiveMean(ts, f) <= b
  {
    QualifyingTotalAtMost(ts, f, b);
    var n := QualifyingCount(ts, f);
    ScaledIsProduct(n, b);
    if n > 0 {
      DivBelow(QualifyingTotal(ts, f), n as real, b);
    }
  }

  function RiskReward(t: Trade): Option<real> {
    t.riskRewardRatio
  }

  function HoldingMinutes(t: Trade): Option<real> {
    t.holdingDurationMinutes
  }

  /** `avgRiskReward`: the mean of the positive R:R values. */
  function AvgRiskReward(ts: seq<Trade>): real {
    PositiveMean(ts, RiskReward)
  }

  /** `calculateAvgHoldingTime`: the mean of the positive holding durations. */
  function AvgHoldingTime(ts: seq<Trade>): real {
    PositiveMean(ts, HoldingMinutes)
  }

  /** `t.checklist_used_id` is truthy. */
  predicate UsedChecklist(t: Trade) {
    Truthy(t.checklistUsedId)
  }

  function WithChecklist(ts: seq<Trade>): (r: seq<Trade>)
    ensures forall i :: 0 <= i < |r| ==> UsedChecklist(r[i])
  {
    if ts == [] then []
    else WithChecklist(DropLast(ts)) + (if UsedChecklist(Last(ts)) then [Last(ts)] else [])
  }

  function WithoutChecklist(ts: seq<Trade>): (r: seq<Trade>)
    ensures forall i :: 0 <= i < |r| ==> !UsedChecklist(r[i])
  {
    if ts == [] then []
    else WithoutChecklist(DropLast(ts)) + (if UsedChecklist(Last(ts)) then [] else [Last(ts)])
  }

  /** Every trade lands in exactly one of the two checklist groups. */
  lemma {:induction false} ChecklistGroupsPartition(ts: seq<Trade>)
    ensures multiset(WithChecklist(ts)) + multiset(WithoutChecklist(ts)) == multiset(ts)
    ensures |WithChecklist(ts)| + |WithoutChecklist(ts)| == |ts|
  {
    if ts != [] {
      var p := DropLast(ts);
      ChecklistGroupsPartition(p);
      assert ts == p + [Last(ts)];
    }
    assert |multiset(WithChecklist(ts))| + |multiset(WithoutChecklist(ts))| == |multiset(ts)|;
  }

  datatype GroupSummary = GroupSummary(trades: nat, winRate: real)

  datatype ChecklistCorrelation = ChecklistCorrelation(withChecklist: GroupSummary, withoutChecklist: GroupSummary)

  function Summarize(g: seq<Trade>): GroupSummary {
    GroupSummary(|g|, WinRate(g))
  }

  /** `calculateChecklistCorrelation` */
  function CalculateChecklistCorrelation(ts: seq<Trade>): ChecklistCorrelation {
    ChecklistCorrelation(Summarize(WithChecklist(ts)), Summarize(WithoutChecklist(ts)))
  }

  /** The two group sizes add up to all trades; an empty group has win rate 0; rates lie in [0, 100]. */
  lemma ChecklistCorrelationProperties(ts: seq<Trade>)
    ensures var c := CalculateChecklistCorrelation(ts);
      && c.withChecklist.trades + c.withoutChecklist.trades == |ts|
      && (c.withChecklist.trades == 0 ==> c.withChecklist.winRate == 0.0)
      && (c.withoutChecklist.trades == 0 ==> c.withoutChecklist.winRate == 0.0)
      && 0.0 <= c.withChecklist.winRate <= 100.0
      && 0.0 <= c.withoutChecklist.winRate <= 100.0
  {
    ChecklistGroupsPartition(ts);
  }

  datatype Metrics = Metrics(
    totalTrades: nat,
    winRate: real,
    totalPnL: real,
    avgRiskReward: real,
    profitFactor: real,
    avgHoldingTime: real,
    strategyPerformance: seq<StrategyEntry>,
    monthlyPerformance: seq<MonthEntry>,
    checklistCorrelation: ChecklistCorrelation)

  /** `getEmptyMetrics` */
  function EmptyMetrics(): Metrics {
    Metrics(0, 0.0, 0.0, 0.0, 0.0, 0.0, [], [],
      ChecklistCorrelation(GroupSummary(0, 0.0), GroupSummary(0, 0.0)))
  }

  /** The metrics record `calculateMetrics` returns. */
  function MetricsOf(ts: seq<Trade>, ss: seq<Strategy>): Metrics {
    Metrics(|ts|, WinRate(ts), TotalPnL(ts), AvgRiskReward(ts), ProfitFactor(ts),
      AvgHoldingTime(ts), StrategyPerformance(ts, ss), MonthlyPerformance(ts),
      CalculateChecklistCorrelation(ts))
  }

  /** `calculateMetrics`: the scalar metrics and the two breakdown passes. */
  method CalculateMetrics(ts: seq<Trade>, ss: seq<Strategy>) returns (m: Metrics)
    ensures m == MetricsOf(ts, ss)
  {
    var strategyPerformance := CalculateStrategyPerformance(ts, ss);
    var monthlyPerformance := CalculateMonthlyPerformance(ts);
    m := Metrics(|ts|, WinRate(ts), TotalPnL(ts), AvgRiskReward(ts), ProfitFactor(ts),
      AvgHoldingTime(ts), strategyPerformance, monthlyPerformance,
      CalculateChecklistCorrelation(ts));
  }

  /** On no trades the calculation itself gives the all-zero record of `getEmptyMetrics`. */
  lemma MetricsOfNoTrades(ss: seq<Strategy>)
    ensures MetricsOf([], ss) == EmptyMetrics()
  {
    assert StrategyPerformance([], ss) == [];
    assert MonthlyPerformance([]) == [];
  }

  /** The bounds every computed metrics record keeps. */
  lemma MetricsBounds(ts: seq<Trade>, ss: seq<Strategy>)
    ensures var m := MetricsOf(ts, ss);
      && m.totalTrades == |ts|
      && 0.0 <= m.winRate <= 100.0
      && m.profitFactor >= 0.0
      && m.avgRiskReward >= 0.0
      && m.avgHoldingTime >= 0.0
      && m.totalPnL == GrossProfit(ts) - GrossLoss(ts)
      && m.checklistCorrelation.withChecklist.trades + m.checklistCorrelation.withoutChecklist.trades == m.totalTrades
  {
    PnLSplit(ts);
    ChecklistCorrelationProperties(ts);
  }
}
