/**
 * The 0-100 performance score of the analyser (`calculatePerformanceScore`),
 * the monthly win-rate spread it uses for consistency
 * (`calculateMonthlyVariance`), and the five labels the score maps to
 * (`calculatePerformanceLabel`).
 *
 * The source compares the standard deviation `Math.sqrt(variance)` of the
 * monthly win rates against 10, 20 and 30. Since the variance is never
 * negative, that is the same as comparing the variance against 100, 400 and
 * 900, which is what the model does.
 */
module PerformanceScore {
  import opened TradeData
  import opened MonthlyBreakdown
  import opened PerformanceMetrics

  function SumRates(es: seq<MonthEntry>): real {
    if es == [] then 0.0 else SumRates(DropLast(es)) + Last(es).winRate
  }

  /** `winRates.reduce((sum, rate) => sum + Math.pow(rate - mean, 2), 0)` */
  function SquaredDeviations(es: seq<MonthEntry>, mean: real): (r: real)
    ensures r >= 0.0
  {
    if es == [] then 0.0
    else
      var d := Last(es).winRate - mean;
      SquaredDeviations(DropLast(es), mean) + d * d
  }

  /** The population variance of the monthly win rates; 0 with fewer than two months. */
  function MonthlyVariance(es: seq<MonthEntry>): (v: real)
    ensures v >= 0.0
    ensures |es| < 2 ==> v == 0.0
  {
    if |es| < 2 then 0.0
    else
      var n := |es| as real;
      SquaredDeviations(es, SumRates(es) / n) / n
  }

  lemma {:induction false} SumRatesUniform(es: seq<MonthEntry>, rate: real)
    requires forall i :: 0 <= i < |es| ==> es[i].winRate == rate
    ensures SumRates(es) == |es| as real * rate
  {
    if es != [] {
      var p := DropLast(es);
      assert forall i :: 0 <= i < |p| ==> p[i] == es[i];
      assert es[|es| - 1] == Last(es);
      SumRatesUniform(p, rate);
      MulAddOne(|p| as real, rate);
    }
  }

  lemma {:induction false} SquaredDeviationsUniform(es: seq<MonthEntry>, rate: real)
    requires forall i :: 0 <= i < |es| ==> es[i].winRate == rate
    ensures SquaredDeviations(es, rate) == 0.0
  {
    if es != [] {
      var p := DropLast(es);
      assert forall i :: 0 <= i < |p| ==> p[i] == es[i];
      assert es[|es| - 1] == Last(es);
      SquaredDeviationsUniform(p, rate);
    }
  }

  /** Months that all share one win rate have no spread. */
  lemma UniformMonthsHaveNoSpread(es: seq<MonthEntry>)
    requires forall i :: 0 <= i < |es| ==> es[i].winRate == es[0].winRate
    ensures MonthlyVariance(es) == 0.0
  {
    if |es| >= 2 {
      var rate := es[0].winRate;
      var n := |es| as real;
      SumRatesUniform(es, rate);
      DivTimes(SumRates(es), n);
      assert SumRates(es) / n == rate by {
        CancelFactor(n, rate);
      }
      SquaredDeviationsUniform(es, rate);
    }
  }

  lemma CancelFactor(n: real, x: real)
    requires n > 0.0
    ensures (n * x) / n == x
  {
  }

  /** Win rate: half a point per percent, at most 30. */
  function WinRatePoints(winRate: real): real {
    Min(winRate * 0.5, 30.0)
  }

  function ProfitFactorPoints(pf: real): real {
    if pf >= 2.0 then 25.0 else if pf >= 1.5 then 20.0 else if pf >= 1.0 then 10.0 else 0.0
  }

  function RiskRewardPoints(rr: real): real {
    if rr >= 2.0 then 20.0 else if rr >= 1.5 then 15.0 else if rr >= 1.0 then 10.0 else 0.0
  }

  /** `monthlyVariance < 10`, `< 20`, `< 30` on the standard deviation, as variance thresholds. */
  function ConsistencyPoints(variance: real): real {
    if variance < 100.0 then 15.0 else if variance < 400.0 then 10.0 else if variance < 900.0 then 5.0 else 0.0
  }

  function VolumePoints(tradeCount: nat): real {
    if tradeCount >= 50 then 10.0 else if tradeCount >= 20 then 7.0 else if tradeCount >= 10 then 5.0 else 0.0
  }

  /** The five components, before the final `Math.min(score, 100)`. */
  function RawScore(m: Metrics, tradeCount: nat): real {
    WinRatePoints(m.winRate) + ProfitFactorPoints(m.profitFactor) + RiskRewardPoints(m.avgRiskReward)
      + ConsistencyPoints(MonthlyVariance(m.monthlyPerformance)) + VolumePoints(tradeCount)
  }

  function Score(m: Metrics, tradeCount: nat): real {
    Min(RawScore(m, tradeCount), 100.0)
  }

  /** `calculatePerformanceScore`: the components added to `score` one after another. */
  method CalculatePerformanceScore(m: Metrics, tradeCount: nat) returns (score: real)
    ensures score == Score(m, tradeCount)
  {
    score := 0.0;
    score := score + Min(m.winRate * 0.5, 30.0);
    assert score == WinRatePoints(m.winRate);

    if m.profitFactor >= 2.0 {
      score := score + 25.0;
    } else if m.profitFactor >= 1.5 {
      score := score + 20.0;
    } else if m.profitFactor >= 1.0 {
      score := score + 10.0;
    }
    assert score == WinRatePoints(m.winRate) + ProfitFactorPoints(m.profitFactor);

    if m.avgRiskReward >= 2.0 {
      score := score + 20.0;
    } else if m.avgRiskReward >= 1.5 {
      score := score + 15.0;
    } else if m.avgRiskReward >= 1.0 {
      score := score + 10.0;
    }
    ghost var partial := WinRatePoints(m.winRate) + ProfitFactorPoints(m.profitFactor) + RiskRewardPoints(m.avgRiskReward);
    assert score == partial;

    var monthlyVariance := MonthlyVariance(m.monthlyPerformance);
    if monthlyVariance < 100.0 {
      score := score + 15.0;
    } else if monthlyVariance < 400.0 {
      score := score + 10.0;
    } else if monthlyVariance < 900.0 {
      score := score + 5.0;
    }
    partial := partial + ConsistencyPoints(monthlyVariance);
    assert score == partial;

    if tradeCount >= 50 {
      score := score + 10.0;
    } else if tradeCount >= 20 {
      score := score + 7.0;
    } else if tradeCount >= 10 {
      score := score + 5.0;
    }
    assert score == RawScore(m, tradeCount);

    score := Min(score, 100.0);
  }

  /**
   * The components are capped at 30 + 25 + 20 + 15 + 10 = 100, so the
   * final cap never changes the score, and a non-negative win rate keeps it
   * in [0, 100].
   */
  lemma ScoreBounds(m: Metrics, tradeCount: nat)
    ensures RawScore(m, tradeCount) <= 100.0
    ensures Score(m, tradeCount) == RawScore(m, tradeCount)
    ensures m.winRate >= 0.0 ==> 0.0 <= Score(m, tradeCount) <= 100.0
  {
  }

  /** Computed metrics always score in [0, 100]. */
  lemma MetricsScoreBounds(ts: seq<Trade>, ss: seq<Strategy>)
    ensures 0.0 <= Score(MetricsOf(ts, ss), |ts|) <= 100.0
  {
    MetricsBounds(ts, ss);
    ScoreBounds(MetricsOf(ts, ss), |ts|);
  }

  /** More trades, or a higher win rate, never lower the score. */
  lemma ScoreMonotone(m: Metrics, n: nat, winRate': real, n': nat)
    requires m.winRate <= winRate' && n <= n'
    ensures Score(m, n) <= Score(m.(winRate := winRate'), n')
  {
  }

  datatype PerformanceLabel = Excellent | Consistent | Improving | Volatile | Declining {
    /** Position on the scale, Declining lowest. */
    function Rank(): nat {
      match this
      case Declining => 0
      case Volatile => 1
      case Improving => 2
      case Consistent => 3
      case Excellent => 4
    }

    /** The lowest score that earns this label (Declining has no lower bound; 0 is the least score). */
    function Threshold(): real {
      match this
      case Declining => 0.0
      case Volatile => 35.0
      case Improving => 50.0
      case Consistent => 65.0
      case Excellent => 80.0
    }
  }

  /** The threshold cascade of `calculatePerformanceLabel`. */
  function LabelOf(score: real): PerformanceLabel {
    if score >= 80.0 then Excellent
    else if score >= 65.0 then Consistent
    else if score >= 50.0 then Improving
    else if score >= 35.0 then Volatile
    else Declining
  }

  /** A higher score never earns a lower label. */
  lemma LabelMonotone(s: real, s': real)
    requires s <= s'
    ensures LabelOf(s).Rank() <= LabelOf(s').Rank()
  {
  }

  /** Each label's threshold earns it, and every score below a threshold earns a lower label. */
  lemma LabelThresholdsExact(l: PerformanceLabel, s: real)
    ensures LabelOf(l.Threshold()) == l
    ensures l != Declining && s < l.Threshold() ==> LabelOf(s).Rank() < l.Rank()
    ensures s >= l.Threshold() ==> LabelOf(s).Rank() >= l.Rank()
  {
  }

  /** `calculatePerformanceLabel`: the label of the score. */
  method CalculatePerformanceLabel(m: Metrics, tradeCount: nat) returns (result: PerformanceLabel)
    ensures result == LabelOf(Score(m, tradeCount))
  {
    var score := CalculatePerformanceScore(m, tradeCount);
    if score >= 80.0 {
      return Excellent;
    }
    if score >= 65.0 {
      return Consistent;
    }
    if score >= 50.0 {
      return Improving;
    }
    if score >= 35.0 {
      return Volatile;
    }
    return Declining;
  }
}
