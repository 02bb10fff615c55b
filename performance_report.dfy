/**
 * The display rules of the performance report page (`PerformanceReport.tsx`):
 * the badge colour of a label, `formatDuration`, and the guards that show a
 * metric, `N/A` or `∞`.
 *
 * What is displayed is a value, not text: `toFixed`, currency formatting
 * and the template strings are not modelled.
 */
module PerformanceReport {
  import opened TradeData
  import opened PerformanceMetrics
  import opened PerformanceScore

  /** The label as the service returns it, a string. */
  function LabelName(l: PerformanceLabel): string {
    match l
    case Excellent => "Excellent"
    case Consistent => "Consistent"
    case Improving => "Improving"
    case Volatile => "Volatile"
    case Declining => "Declining"
  }

  const Gray: string := "bg-gray-500"

  /** `getPerformanceLabelColor` */
  function LabelColor(name: string): string {
    if name == "Excellent" then "bg-green-500"
    else if name == "Consistent" then "bg-blue-500"
    else if name == "Improving" then "bg-yellow-500"
    else if name == "Volatile" then "bg-orange-500"
    else if name == "Declining" then "bg-red-500"
    else Gray
  }

  /** Each of the five labels has a colour of its own, and none of them is the fallback gray. */
  lemma LabelColorsDistinct(l: PerformanceLabel, l': PerformanceLabel)
    ensures LabelColor(LabelName(l)) != Gray
    ensures l != l' ==> LabelColor(LabelName(l)) != LabelColor(LabelName(l'))
  {
    assert "bg-yellow-500"[3] != "bg-orange-500"[3];
  }

  /** Any other string gets the fallback gray. */
  lemma UnknownLabelIsGray(name: string)
    requires forall l :: name != LabelName(l)
    ensures LabelColor(name) == Gray
  {
    assert name != LabelName(Excellent) && name != LabelName(Consistent) && name != LabelName(Improving);
    assert name != LabelName(Volatile) && name != LabelName(Declining);
  }

  /** What `formatDuration` shows: `"<m>m"` or `"<h>h <m>m"`. */
  datatype Duration = Minutes(minutes: int) | HoursMinutes(hours: int, minutes: int)

  /** Truncation toward zero, as JavaScript's `%` uses it. */
  function Trunc(x: real): int {
    if x >= 0.0 then x.Floor else -((-x).Floor)
  }

  /** JavaScript's `x % 60`: the remainder takes the sign of `x`. */
  function Remainder60(x: real): real {
    x - 60.0 * Trunc(x / 60.0) as real
  }

  /** `formatDuration` as written: the remainder is rounded after the hours are taken off. */
  function FormatDuration(m: real): Duration {
    if m < 60.0 then Minutes(Round(m))
    else HoursMinutes((m / 60.0).Floor, Round(Remainder60(m)))
  }

  /**
   * From an hour up, the hours are whole and the shown minutes are the
   * rounded rest, which can round up to 60: exactly when the rest is at
   * least 59.5 minutes.
   */
  lemma FormatDurationSplit(m: real)
    requires m >= 60.0
    ensures var d := FormatDuration(m);
      && d.HoursMinutes? && d.hours >= 1
      && 0.0 <= m - 60.0 * d.hours as real < 60.0
      && d.minutes == Round(m - 60.0 * d.hours as real)
      && 0 <= d.minutes <= 60
      && (d.minutes == 60 <==> m - 60.0 * d.hours as real >= 59.5)
  {
    var h := (m / 60.0).Floor;
    assert h as real <= m / 60.0 < h as real + 1.0;
    assert Trunc(m / 60.0) == h;
  }

  /** 119.5 minutes is shown as "1h 60m". */
  lemma FormatDurationShowsSixtyMinutes()
    ensures FormatDuration(119.5) == HoursMinutes(1, 60)
  {
    assert (119.5 / 60.0).Floor == 1 by {
      assert 1.0 <= 119.5 / 60.0 < 2.0;
    }
    assert Remainder60(119.5) == 59.5;
  }

  /** 59.5 minutes is shown as "60m" instead of "1h 0m". */
  lemma FormatDurationShowsSixtyUnderAnHour()
    ensures FormatDuration(59.5) == Minutes(60)
  {
  }

  /** The duration with the rounding done first: minutes stay below 60 and the total is the rounded input. */
  function FormatDurationRounded(m: real): (d: Duration)
    ensures d.Minutes? ==> d.minutes < 60 && d.minutes == Round(m)
    ensures d.HoursMinutes? ==> d.hours >= 1 && 0 <= d.minutes < 60 && d.hours * 60 + d.minutes == Round(m)
  {
    var r := Round(m);
    if r < 60 then Minutes(r) else HoursMinutes(r / 60, r % 60)
  }

  /** `(n / 60.0).Floor` is integer division for a whole number of minutes. */
  lemma FloorOfWholeMinutes(n: int)
    requires n >= 0
    ensures (n as real / 60.0).Floor == n / 60
  {
    var q, r := n / 60, n % 60;
    assert n as real / 60.0 == q as real + r as real / 60.0;
  }

  /** The two formats agree below 59.5 minutes and on every whole number of minutes from an hour up. */
  lemma FormatDurationsAgree(m: real, n: int)
    requires n >= 60
    ensures m < 59.5 ==> FormatDuration(m) == FormatDurationRounded(m)
    ensures FormatDuration(n as real) == FormatDurationRounded(n as real)
  {
    FloorOfWholeMinutes(n);
    assert Trunc(n as real / 60.0) == n / 60;
    assert Remainder60(n as real) == (n % 60) as real;
  }

  /** `averageRR > 0 ? '1:' + averageRR : 'N/A'`; `None` is `N/A`. */
  function RiskRewardDisplay(averageRR: real): Option<real> {
    if averageRR > 0.0 then Some(averageRR) else None
  }

  /** `avgHoldingTime > 0 ? formatDuration(avgHoldingTime) : 'N/A'` */
  function HoldTimeDisplay(avgHoldingTime: real): Option<Duration> {
    if avgHoldingTime > 0.0 then Some(FormatDuration(avgHoldingTime)) else None
  }

  /** The same card with the corrected formatter. */
  function HoldTimeDisplayRounded(avgHoldingTime: real): Option<Duration> {
    if avgHoldingTime > 0.0 then Some(FormatDurationRounded(avgHoldingTime)) else None
  }

  /**
   * The hold time reads N/A exactly when no trade has a positive holding
   * duration. Otherwise the shown minutes lie in 0..60, and they are 60
   * exactly when the part being rounded is at least 59.5 minutes.
   */
  lemma HoldTimeShownIff(ts: seq<Trade>)
    ensures HoldTimeDisplay(AvgHoldingTime(ts)).None? <==>
      forall i :: 0 <= i < |ts| ==> !Qualifies(HoldingMinutes(ts[i]))
    ensures var avg, d := AvgHoldingTime(ts), HoldTimeDisplay(AvgHoldingTime(ts));
      d.Some? && d.value.Minutes? ==>
        && avg < 60.0 && 0 <= d.value.minutes <= 60
        && (d.value.minutes == 60 <==> avg >= 59.5)
    ensures var avg, d := AvgHoldingTime(ts), HoldTimeDisplay(AvgHoldingTime(ts));
      d.Some? && d.value.HoursMinutes? ==>
        && d.value.hours >= 1 && 0 <= d.value.minutes <= 60
        && (d.value.minutes == 60 <==> avg - 60.0 * d.value.hours as real >= 59.5)
  {
    var avg := AvgHoldingTime(ts);
    PositiveMeanSign(ts, HoldingMinutes);
    if avg >= 60.0 {
      FormatDurationSplit(avg);
    }
  }

  /** Two trades of 119 and 120 minutes average 119.5, which the card shows as "1h 60m". */
  lemma HoldTimeShowsSixtyMinutes(t1: Trade, t2: Trade)
    requires t1.holdingDurationMinutes == Some(119.0) && t2.holdingDurationMinutes == Some(120.0)
    ensures HoldTimeDisplay(AvgHoldingTime([t1, t2])) == Some(HoursMinutes(1, 60))
  {
    assert DropLast([t1, t2]) == [t1] && Last([t1, t2]) == t2;
    assert DropLast([t1]) == [] && Last([t1]) == t1;
    assert QualifyingCount([t1, t2], HoldingMinutes) == 2;
    assert QualifyingTotal([t1, t2], HoldingMinutes) == 239.0;
    assert AvgHoldingTime([t1, t2]) == 119.5;
    FormatDurationShowsSixtyMinutes();
  }

  /** With the corrected formatter the hold time has the same N/A rule and never shows 60 minutes. */
  lemma HoldTimeRoundedShownIff(ts: seq<Trade>)
    ensures HoldTimeDisplayRounded(AvgHoldingTime(ts)).None? <==>
      forall i :: 0 <= i < |ts| ==> !Qualifies(HoldingMinutes(ts[i]))
    ensures HoldTimeDisplayRounded(AvgHoldingTime(ts)).Some? ==> HoldTimeDisplayRounded(AvgHoldingTime(ts)).value.minutes < 60
  {
    PositiveMeanSign(ts, HoldingMinutes);
  }

  /** The R:R figure reads N/A exactly when no trade has a positive ratio. */
  lemma RiskRewardShownIff(ts: seq<Trade>)
    ensures RiskRewardDisplay(AvgRiskReward(ts)).None? <==>
      forall i :: 0 <= i < |ts| ==> !Qualifies(RiskReward(ts[i]))
  {
    PositiveMeanSign(ts, RiskReward);
  }

  /** A JavaScript number as far as the profit-factor card looks at it. */
  datatype JsNumber = Finite(value: real) | Infinity

  datatype FactorShown = InfinitySign | Fixed(value: real)

  /** `profitFactor === Infinity ? '∞' : profitFactor.toFixed(2)` */
  function ProfitFactorDisplay(pf: JsNumber): FactorShown {
    if pf.Infinity? then InfinitySign else Fixed(pf.value)
  }

  /**
   * What the profit-factor card shows for the service's factor. The
   * service's factor is always a finite number, so the `∞` branch is never
   * taken: with a loss the card shows the ratio of profit to loss, with
   * profit and no loss the sentinel 999, and with no profit 0.
   */
  lemma ServiceProfitFactorShown(ts: seq<Trade>)
    ensures GrossLoss(ts) > 0.0 ==> exists v :: ProfitFactorDisplay(Finite(ProfitFactor(ts))) == Fixed(v) && v * GrossLoss(ts) == GrossProfit(ts)
    ensures GrossLoss(ts) == 0.0 && GrossProfit(ts) > 0.0 ==> ProfitFactorDisplay(Finite(ProfitFactor(ts))) == Fixed(999.0)
    ensures GrossProfit(ts) == 0.0 ==> ProfitFactorDisplay(Finite(ProfitFactor(ts))) == Fixed(0.0)
  {
    if GrossLoss(ts) > 0.0 {
      ProfitFactorRatio(ts);
    }
  }
}
