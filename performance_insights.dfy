/**
 * The rule-based insights of the analyser (`generateInsights`): one win-rate
 * insight, then at most one best-strategy, one checklist and one
 * profit-factor insight, in that order. Message texts are modelled by
 * which message it is and the numbers it quotes; their `toFixed` rendering
 * is not modelled.
 */
module PerformanceInsights {
  import opened TradeData
  import opened StrategyBreakdown
  import opened PerformanceMetrics

  datatype Sentiment = Positive | Negative | Neutral

  datatype Message =
    | ExcellentWinRate(winRate: real)
    | SolidWinRate(winRate: real)
    | WeakWinRate(winRate: real)
    | BestStrategy(name: string, strategyWinRate: real)
    | ChecklistHelps(improvement: real)
    | ChecklistHurts
    | ExcellentProfitFactor(pf: real)
    | GoodProfitFactor(pf: real)
    | WeakProfitFactor(pf: real)
    | StartTrading
  {
    predicate IsWinRate() {
      ExcellentWinRate? || SolidWinRate? || WeakWinRate?
    }

    predicate IsChecklist() {
      ChecklistHelps? || ChecklistHurts?
    }

    predicate IsProfitFactor() {
      ExcellentProfitFactor? || GoodProfitFactor? || WeakProfitFactor?
    }
  }

  datatype Insight = Insight(kind: Sentiment, message: Message)

  function WinRateInsight(winRate: real): (i: Insight)
    ensures i.message.IsWinRate()
    ensures i.kind == Positive <==> winRate >= 60.0
    ensures i.kind == Neutral <==> 50.0 <= winRate < 60.0
    ensures i.kind == Negative <==> winRate < 50.0
  {
    if winRate >= 60.0 then Insight(Positive, ExcellentWinRate(winRate))
    else if winRate >= 50.0 then Insight(Neutral, SolidWinRate(winRate))
    else Insight(Negative, WeakWinRate(winRate))
  }

  /**
   * The index the `reduce` keeps: the current entry replaces the best only
   * when its win rate is strictly higher, so the earliest of the tied
   * highest entries wins.
   */
  function BestIndex(es: seq<StrategyEntry>): (b: nat)
    requires es != []
    ensures b < |es|
    ensures forall j :: 0 <= j < |es| ==> es[j].winRate <= es[b].winRate
    ensures forall j :: 0 <= j < b ==> es[j].winRate < es[b].winRate
  {
    if |es| == 1 then 0
    else
      var b := BestIndex(DropLast(es));
      if Last(es).winRate > es[b].winRate then |es| - 1 else b
  }

  function StrategyInsights(es: seq<StrategyEntry>): (r: seq<Insight>)
    ensures |r| == if es == [] then 0 else 1
    ensures forall i :: 0 <= i < |r| ==> r[i].message.BestStrategy?
  {
    if es == [] then []
    else
      var best := es[BestIndex(es)];
      [Insight(Positive, BestStrategy(best.strategyName, best.winRate))]
  }

  function ChecklistInsights(c: ChecklistCorrelation): (r: seq<Insight>)
    ensures |r| <= 1
    ensures forall i :: 0 <= i < |r| ==> r[i].message.IsChecklist()
  {
    var w, wo := c.withChecklist, c.withoutChecklist;
    if w.trades > 0 && wo.trades > 0 then
      if w.winRate > wo.winRate + 5.0 then [Insight(Positive, ChecklistHelps(w.winRate - wo.winRate))]
      else if wo.winRate > w.winRate + 5.0 then [Insight(Negative, ChecklistHurts)]
      else []
    else []
  }

  function ProfitFactorInsights(pf: real): (r: seq<Insight>)
    ensures |r| <= 1
    ensures forall i :: 0 <= i < |r| ==> r[i].message.IsProfitFactor()
  {
    if pf >= 2.0 then [Insight(Positive, ExcellentProfitFactor(pf))]
    else if pf >= 1.5 then [Insight(Neutral, GoodProfitFactor(pf))]
    else if pf < 1.0 then [Insight(Negative, WeakProfitFactor(pf))]
    else []
  }

  /** The insights in the order the source pushes them. */
  function Insights(m: Metrics): seq<Insight> {
    [WinRateInsight(m.winRate)] + StrategyInsights(m.strategyPerformance)
      + ChecklistInsights(m.checklistCorrelation) + ProfitFactorInsights(m.profitFactor)
  }

  /** `generateInsights`: the four rule groups push onto one array. */
  method GenerateInsights(m: Metrics) returns (insights: seq<Insight>)
    ensures insights == Insights(m)
  {
    insights := [];
    if m.winRate >= 60.0 {
      insights := insights + [Insight(Positive, ExcellentWinRate(m.winRate))];
    } else if m.winRate >= 50.0 {
      insights := insights + [Insight(Neutral, SolidWinRate(m.winRate))];
    } else {
      insights := insights + [Insight(Negative, WeakWinRate(m.winRate))];
    }
    assert insights == [WinRateInsight(m.winRate)];

    if |m.strategyPerformance| > 0 {
      var best := m.strategyPerformance[BestIndex(m.strategyPerformance)];
      insights := insights + [Insight(Positive, BestStrategy(best.strategyName, best.winRate))];
    }
    assert insights == [WinRateInsight(m.winRate)] + StrategyInsights(m.strategyPerformance);
    ghost var prefix := insights;

    var withChecklist, withoutChecklist := m.checklistCorrelation.withChecklist, m.checklistCorrelation.withoutChecklist;
    if withChecklist.trades > 0 && withoutChecklist.trades > 0 {
      if withChecklist.winRate > withoutChecklist.winRate + 5.0 {
        insights := insights + [Insight(Positive, ChecklistHelps(withChecklist.winRate - withoutChecklist.winRate))];
      } else if withoutChecklist.winRate > withChecklist.winRate + 5.0 {
        insights := insights + [Insight(Negative, ChecklistHurts)];
      }
    }
    assert insights == prefix + ChecklistInsights(m.checklistCorrelation);
    prefix := insights;

    if m.profitFactor >= 2.0 {
      insights := insights + [Insight(Positive, ExcellentProfitFactor(m.profitFactor))];
    } else if m.profitFactor >= 1.5 {
      insights := insights + [Insight(Neutral, GoodProfitFactor(m.profitFactor))];
    } else if m.profitFactor < 1.0 {
      insights := insights + [Insight(Negative, WeakProfitFactor(m.profitFactor))];
    }
    assert insights == prefix + ProfitFactorInsights(m.profitFactor);
  }

  /** Where each position of the insight list comes from. */
  lemma InsightsAt(m: Metrics, i: nat)
    requires i < |Insights(m)|
    ensures var s, c, p := StrategyInsights(m.strategyPerformance), ChecklistInsights(m.checklistCorrelation), ProfitFactorInsights(m.profitFactor);
      Insights(m)[i] ==
        if i == 0 then WinRateInsight(m.winRate)
        else if i < 1 + |s| then s[i - 1]
        else if i < 1 + |s| + |c| then c[i - 1 - |s|]
        else p[i - 1 - |s| - |c|]
  {
  }

  /** There are one to four insights, and exactly one is about the win rate: the first. */
  lemma InsightsShape(m: Metrics)
    ensures 1 <= |Insights(m)| <= 4
    ensures Insights(m)[0] == WinRateInsight(m.winRate)
    ensures forall i :: 1 <= i < |Insights(m)| ==> !Insights(m)[i].message.IsWinRate()
  {
    forall i | 1 <= i < |Insights(m)| ensures !Insights(m)[i].message.IsWinRate() {
      InsightsAt(m, i);
    }
  }

  /**
   * A best-strategy insight appears exactly when the breakdown is not empty;
   * it is the second insight, it names an entry with the highest win rate,
   * and no earlier entry has that rate.
   */
  lemma BestStrategyInsight(m: Metrics)
    ensures (exists i :: 0 <= i < |Insights(m)| && Insights(m)[i].message.BestStrategy?)
      <==> m.strategyPerformance != []
    ensures m.strategyPerformance != [] ==>
      var es := m.strategyPerformance;
      exists b :: 0 <= b < |es|
        && Insights(m)[1] == Insight(Positive, BestStrategy(es[b].strategyName, es[b].winRate))
        && (forall j :: 0 <= j < |es| ==> es[j].winRate <= es[b].winRate)
        && (forall j :: 0 <= j < b ==> es[j].winRate < es[b].winRate)
  {
    var ins := Insights(m);
    forall i | 0 <= i < |ins| ensures ins[i].message.BestStrategy? ==> i == 1 && m.strategyPerformance != [] {
      InsightsAt(m, i);
    }
    if m.strategyPerformance != [] {
      InsightsAt(m, 1);
      var b := BestIndex(m.strategyPerformance);
      assert ins[1] == Insight(Positive, BestStrategy(m.strategyPerformance[b].strategyName, m.strategyPerformance[b].winRate));
    }
  }

  /**
   * A checklist insight appears exactly when both groups have trades and
   * their win rates differ by more than 5 points; it is positive exactly
   * when the checklist group is ahead.
   */
  lemma ChecklistInsight(m: Metrics)
    ensures var w, wo := m.checklistCorrelation.withChecklist, m.checklistCorrelation.withoutChecklist;
      (exists i :: 0 <= i < |Insights(m)| && Insights(m)[i].message.IsChecklist())
      <==> w.trades > 0 && wo.trades > 0 && (w.winRate > wo.winRate + 5.0 || wo.winRate > w.winRate + 5.0)
    ensures var w, wo := m.checklistCorrelation.withChecklist, m.checklistCorrelation.withoutChecklist;
      forall i :: 0 <= i < |Insights(m)| && Insights(m)[i].message.IsChecklist() ==>
        (Insights(m)[i].kind == Positive <==> w.winRate > wo.winRate + 5.0)
  {
    var s, c := StrategyInsights(m.strategyPerformance), ChecklistInsights(m.checklistCorrelation);
    var ins := Insights(m);
    forall i | 0 <= i < |ins| ensures ins[i].message.IsChecklist() ==> ins[i] == c[i - 1 - |s|] {
      InsightsAt(m, i);
    }
    if c != [] {
      InsightsAt(m, 1 + |s|);
    }
  }

  /**
   * A profit factor in [1, 1.5) gets no insight; any other gets exactly one,
   * the last, positive from 2, neutral from 1.5 and negative below 1.
   */
  lemma ProfitFactorInsight(m: Metrics)
    ensures var pf := m.profitFactor;
      (exists i :: 0 <= i < |Insights(m)| && Insights(m)[i].message.IsProfitFactor())
      <==> !(1.0 <= pf < 1.5)
    ensures var pf := m.profitFactor;
      !(1.0 <= pf < 1.5) ==>
        var last := Insights(m)[|Insights(m)| - 1];
        && last.message.IsProfitFactor()
        && (last.kind == Positive <==> pf >= 2.0)
        && (last.kind == Neutral <==> 1.5 <= pf < 2.0)
        && (last.kind == Negative <==> pf < 1.0)
  {
    var s, c, p := StrategyInsights(m.strategyPerformance), ChecklistInsights(m.checklistCorrelation), ProfitFactorInsights(m.profitFactor);
    var ins := Insights(m);
    forall i | 0 <= i < |ins| ensures ins[i].message.IsProfitFactor() ==> ins[i] == p[i - 1 - |s| - |c|] {
      InsightsAt(m, i);
    }
    if p != [] {
      InsightsAt(m, |ins| - 1);
    }
  }
}
