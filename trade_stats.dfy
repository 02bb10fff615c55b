/**
 * The statistics block of the dashboard's trade summary
 * (`TradeStats.tsx`): result counts, the rounded win rate, signed pips,
 * the average pips per trade, the three-way verdict and the bar-chart data.
 */
module TradeStats {
  import opened TradeData

  /** The dashboard's trade: a result string and the two prices. */
  datatype DashboardTrade = DashboardTrade(result: string, entryPrice: real, exitPrice: real, direction: Direction)

  predicate ValidResult(t: DashboardTrade) {
    t.result == Win.Text() || t.result == Loss.Text() || t.result == BreakEven.Text()
  }

  /** `trades.filter(trade => trade.result === r).length` */
  function CountResult(ts: seq<DashboardTrade>, r: string): (n: nat)
    ensures n <= |ts|
  {
    if ts == [] then 0 else CountResult(DropLast(ts), r) + (if Last(ts).result == r then 1 else 0)
  }

  function WinCount(ts: seq<DashboardTrade>): nat { CountResult(ts, Win.Text()) }
  function LossCount(ts: seq<DashboardTrade>): nat { CountResult(ts, Loss.Text()) }
  function BreakEvenCount(ts: seq<DashboardTrade>): nat { CountResult(ts, BreakEven.Text()) }

  /** The three counts never exceed the trades, and cover them when every result is one of the three. */
  lemma {:induction false} ResultCountsPartition(ts: seq<DashboardTrade>)
    ensures WinCount(ts) + LossCount(ts) + BreakEvenCount(ts) <= |ts|
    ensures (forall i :: 0 <= i < |ts| ==> ValidResult(ts[i])) ==>
      WinCount(ts) + LossCount(ts) + BreakEvenCount(ts) == |ts|
  {
    if ts != [] {
      var p := DropLast(ts);
      ResultCountsPartition(p);
      assert forall i :: 0 <= i < |p| ==> p[i] == ts[i];
      assert ts[|ts| - 1] == Last(ts);
    }
  }

  lemma RoundNearest(x: real)
    ensures x - 0.5 < Round(x) as real <= x + 0.5
  {
  }

  /** `totalTrades > 0 ? Math.round((wins / totalTrades) * 100) : 0` */
  function WinRate(ts: seq<DashboardTrade>): (r: int)
    ensures 0 <= r <= 100
  {
    if |ts| > 0 then
      PercentBounds(WinCount(ts), |ts|);
      Round(Percent(WinCount(ts), |ts|))
    else 0
  }

  /** With trades, the win rate is the percentage of wins to within half a point; without, it is 0. */
  lemma WinRateRounds(ts: seq<DashboardTrade>)
    ensures ts == [] ==> WinRate(ts) == 0
    ensures ts != [] ==>
      var exact := Percent(WinCount(ts), |ts|);
      exact - 0.5 < WinRate(ts) as real <= exact + 0.5
  {
    if ts != [] {
      RoundNearest(Percent(WinCount(ts), |ts|));
    }
  }

  /** `getPipsDifference`: the price distance times 10000, never negative. */
  function Pips(t: DashboardTrade): (p: real)
    ensures p >= 0.0
    ensures p == 0.0 <==> t.exitPrice == t.entryPrice
  {
    Abs(t.exitPrice - t.entryPrice) * 10000.0
  }

  /** What one trade adds to the running total in the `reduce`. */
  function SignedPips(t: DashboardTrade): real {
    if t.result == Win.Text() then Pips(t)
    else if t.result == Loss.Text() then -Pips(t)
    else 0.0
  }

  function TotalPips(ts: seq<DashboardTrade>): real {
    if ts == [] then 0.0 else TotalPips(DropLast(ts)) + SignedPips(Last(ts))
  }

  /** The pips of the trades with result `r`. */
  function PipsOf(ts: seq<DashboardTrade>, r: string): (p: real)
    ensures p >= 0.0
  {
    if ts == [] then 0.0 else PipsOf(DropLast(ts), r) + (if Last(ts).result == r then Pips(Last(ts)) else 0.0)
  }

  /**
   * The total is the pips won less the pips lost; break-even trades (and
   * any other result) do not enter it.
   */
  lemma {:induction false} TotalPipsSplit(ts: seq<DashboardTrade>)
    ensures TotalPips(ts) == PipsOf(ts, Win.Text()) - PipsOf(ts, Loss.Text())
  {
    if ts != [] {
      TotalPipsSplit(DropLast(ts));
    }
  }

  /** A trade that is neither a win nor a loss leaves the total as it was. */
  lemma TotalPipsIgnores(ts: seq<DashboardTrade>, t: DashboardTrade)
    requires t.result != Win.Text() && t.result != Loss.Text()
    ensures TotalPips(ts + [t]) == TotalPips(ts)
  {
    DropLastAppend(ts, t);
  }

  /** `totalTrades > 0 ? totalPips / totalTrades : 0` */
  function AvgPips(ts: seq<DashboardTrade>): real {
    if |ts| > 0 then TotalPips(ts) / |ts| as real else 0.0
  }

  /** The average is 0 without trades and otherwise has the sign of the total. */
  lemma AvgPipsSign(ts: seq<DashboardTrade>)
    ensures ts == [] ==> AvgPips(ts) == 0.0
    ensures AvgPips(ts) > 0.0 <==> TotalPips(ts) > 0.0
    ensures AvgPips(ts) < 0.0 <==> TotalPips(ts) < 0.0
  {
    if ts != [] {
      var n := |ts| as real;
      var a := TotalPips(ts) / n;
      assert a * n == TotalPips(ts);
    }
  }

  datatype Verdict = Profitable | Neutral | NeedsWork {
    function Text(): string {
      match this
      case Profitable => "Profitable"
      case Neutral => "Neutral"
      case NeedsWork => "Needs Work"
    }
  }

  /** `winRate > 50 ? 'Profitable' : winRate > 40 ? 'Neutral' : 'Needs Work'` */
  function VerdictOf(winRate: int): Verdict {
    if winRate > 50 then Profitable else if winRate > 40 then Neutral else NeedsWork
  }

  /** The three verdicts split the win rates at 40 and 50, and a higher rate never gets a worse one. */
  lemma VerdictIff(winRate: int, higher: int)
    ensures VerdictOf(winRate) == Profitable <==> winRate > 50
    ensures VerdictOf(winRate) == Neutral <==> 40 < winRate <= 50
    ensures VerdictOf(winRate) == NeedsWork <==> winRate <= 40
    ensures winRate <= higher && VerdictOf(winRate) == Profitable ==> VerdictOf(higher) == Profitable
    ensures winRate <= higher && VerdictOf(higher) == NeedsWork ==> VerdictOf(winRate) == NeedsWork
  {
  }

  datatype Bar = Bar(name: string, value: nat, fill: string)

  /** `chartData` */
  function ChartData(ts: seq<DashboardTrade>): seq<Bar> {
    [ Bar("Wins", WinCount(ts), "#10b981"),
      Bar("Losses", LossCount(ts), "#ef4444"),
      Bar("Break Even", BreakEvenCount(ts), "#94a3b8") ]
  }

  /** Three bars in the order wins, losses, break-even, whose values add up to the trades when all results are valid. */
  lemma ChartDataShape(ts: seq<DashboardTrade>)
    ensures var c := ChartData(ts);
      && |c| == 3
      && c[0].name == "Wins" && c[1].name == "Losses" && c[2].name == "Break Even"
      && c[0].value == WinCount(ts) && c[1].value == LossCount(ts) && c[2].value == BreakEvenCount(ts)
      && c[0].value + c[1].value + c[2].value <= |ts|
    ensures (forall i :: 0 <= i < |ts| ==> ValidResult(ts[i])) ==>
      var c := ChartData(ts);
      c[0].value + c[1].value + c[2].value == |ts|
  {
    ResultCountsPartition(ts);
  }
}
