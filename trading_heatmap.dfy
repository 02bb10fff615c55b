/**
 * The activity heatmap of the dashboard (`TradingHeatmap.tsx`): a grid of
 * five weekdays by 24 hours, each cell holding the number of trades opened
 * in that weekday and hour, their summed P/L and a clamped intensity, and
 * the colour and opacity rules that draw a cell.
 *
 * Each trade's local weekday and hour are inputs (the `createdAt` fields);
 * `Number(profit_loss)` is read as `ProfitLoss`, `null` counting as 0.
 */
module TradingHeatmap {
  import opened TradeData

  /** `days`: the rows, Monday to Friday. */
  const Days: seq<Weekday> := [Mon, Tue, Wed, Thu, Fri]

  const HourCount := 24

  datatype Cell = Cell(day: Weekday, hour: int, trades: nat, pnl: real, intensity: real)

  predicate InCell(t: Trade, day: Weekday, hour: int) {
    t.createdAt.weekday == day && t.createdAt.hour == hour
  }

  /** `dayTrades`: the trades of one weekday and hour, in order. */
  function CellTrades(ts: seq<Trade>, day: Weekday, hour: int): (r: seq<Trade>)
    ensures |r| <= |ts|
    ensures forall i :: 0 <= i < |r| ==> InCell(r[i], day, hour)
  {
    if ts == [] then []
    else CellTrades(DropLast(ts), day, hour) + (if InCell(Last(ts), day, hour) then [Last(ts)] else [])
  }

  /** `tradeCount > 0 ? Math.min(tradeCount / 5, 1) : 0` */
  function Intensity(count: nat): real {
    if count > 0 then Min(count as real / 5.0, 1.0) else 0.0
  }

  function MakeCell(ts: seq<Trade>, day: Weekday, hour: int): Cell {
    var g := CellTrades(ts, day, hour);
    Cell(day, hour, |g|, TotalPnL(g), Intensity(|g|))
  }

  /** `heatmapData` */
  function HeatmapData(ts: seq<Trade>): seq<seq<Cell>> {
    seq(|Days|, d requires 0 <= d < |Days| => seq(HourCount, h => MakeCell(ts, Days[d], h)))
  }

  /** Five rows Monday to Friday, 24 columns for the hours 0 to 23 in order. */
  lemma HeatmapShape(ts: seq<Trade>)
    ensures |HeatmapData(ts)| == 5
    ensures forall d :: 0 <= d < 5 ==> |HeatmapData(ts)[d]| == 24
    ensures forall d, h :: 0 <= d < 5 && 0 <= h < 24 ==>
      HeatmapData(ts)[d][h].day == Days[d] && HeatmapData(ts)[d][h].hour == h
  {
  }

  /** A cell's trades are exactly the trades of its weekday and hour. */
  lemma {:induction false} CellTradesExact(ts: seq<Trade>, day: Weekday, hour: int, t: Trade)
    ensures t in CellTrades(ts, day, hour) <==> t in ts && InCell(t, day, hour)
  {
    if ts != [] {
      CellTradesExact(DropLast(ts), day, hour, t);
      assert ts == DropLast(ts) + [Last(ts)];
    }
  }

  /** A cell's count and P/L are those of exactly its own trades. */
  lemma CellContents(ts: seq<Trade>, d: nat, h: nat)
    requires d < 5 && h < 24
    ensures var c := HeatmapData(ts)[d][h];
      && c.trades == |CellTrades(ts, Days[d], h)|
      && c.pnl == TotalPnL(CellTrades(ts, Days[d], h))
      && forall t :: t in CellTrades(ts, Days[d], h) <==> t in ts && InCell(t, Days[d], h)
  {
    forall t ensures t in CellTrades(ts, Days[d], h) <==> t in ts && InCell(t, Days[d], h) {
      CellTradesExact(ts, Days[d], h, t);
    }
  }

  /** Intensity lies in [0, 1], is 0 exactly for an empty cell and 1 exactly from five trades on. */
  lemma IntensityBounds(count: nat)
    ensures 0.0 <= Intensity(count) <= 1.0
    ensures Intensity(count) == 0.0 <==> count == 0
    ensures Intensity(count) == 1.0 <==> count >= 5
  {
  }

  /** The trades counted in the grid: a weekday from Monday to Friday and an hour from 0 to 23. */
  predicate InGrid(t: Trade) {
    t.createdAt.weekday in Days && 0 <= t.createdAt.hour < HourCount
  }

  function GridTrades(ts: seq<Trade>): (r: seq<Trade>)
    ensures |r| <= |ts|
  {
    if ts == [] then [] else GridTrades(DropLast(ts)) + (if InGrid(Last(ts)) then [Last(ts)] else [])
  }

  /** The trade counts of a row's cells, summed. */
  function RowTotal(row: seq<Cell>): nat {
    if row == [] then 0 else RowTotal(DropLast(row)) + Last(row).trades
  }

  function GridTotal(grid: seq<seq<Cell>>): nat {
    if grid == [] then 0 else GridTotal(DropLast(grid)) + RowTotal(Last(grid))
  }

  /** The trades of weekday `day` at hours below `n`, counted cell by cell. */
  function HoursTotal(ts: seq<Trade>, day: Weekday, n: nat): nat {
    if n == 0 then 0 else HoursTotal(ts, day, n - 1) + |CellTrades(ts, day, n - 1)|
  }

  /** The trades of the first `n` weekdays of the grid, counted cell by cell. */
  function DaysTotal(ts: seq<Trade>, n: nat): nat
    requires n <= |Days|
  {
    if n == 0 then 0 else DaysTotal(ts, n - 1) + HoursTotal(ts, Days[n - 1], HourCount)
  }

  lemma {:induction false} HoursTotalStep(ts: seq<Trade>, t: Trade, day: Weekday, n: nat)
    ensures HoursTotal(ts + [t], day, n) ==
      HoursTotal(ts, day, n) + (if t.createdAt.weekday == day && 0 <= t.createdAt.hour < n then 1 else 0)
  {
    DropLastAppend(ts, t);
    if n > 0 {
      HoursTotalStep(ts, t, day, n - 1);
    }
  }

  lemma {:induction false} DaysTotalStep(ts: seq<Trade>, t: Trade, n: nat)
    requires n <= |Days|
    ensures DaysTotal(ts + [t], n) ==
      DaysTotal(ts, n) + (if t.createdAt.weekday in Days[..n] && 0 <= t.createdAt.hour < HourCount then 1 else 0)
  {
    if n > 0 {
      DaysTotalStep(ts, t, n - 1);
      HoursTotalStep(ts, t, Days[n - 1], HourCount);
      assert Days[..n] == Days[..n - 1] + [Days[n - 1]];
    }
  }

  lemma {:induction false} NoTradesNoCounts(n: nat)
    requires n <= |Days|
    ensures DaysTotal([], n) == 0
  {
    if n > 0 {
      NoTradesNoCounts(n - 1);
      NoTradesNoHours(Days[n - 1], HourCount);
    }
  }

  lemma {:induction false} NoTradesNoHours(day: Weekday, n: nat)
    ensures HoursTotal([], day, n) == 0
  {
    if n > 0 {
      NoTradesNoHours(day, n - 1);
    }
  }

  /** Counting cell by cell counts every grid trade once. */
  lemma {:induction false} DaysTotalCountsGridTrades(ts: seq<Trade>)
    ensures DaysTotal(ts, |Days|) == |GridTrades(ts)|
  {
    if ts != [] {
      var p, t := DropLast(ts), Last(ts);
      DaysTotalCountsGridTrades(p);
      assert ts == p + [t];
      DaysTotalStep(p, t, |Days|);
      assert Days[..|Days|] == Days;
      assert |GridTrades(ts)| == |GridTrades(p)| + (if InGrid(t) then 1 else 0);
    } else {
      NoTradesNoCounts(|Days|);
    }
  }

  lemma {:induction false} RowTotalIsHoursTotal(ts: seq<Trade>, day: Weekday, n: nat)
    requires n <= HourCount
    ensures RowTotal(seq(HourCount, h => MakeCell(ts, day, h))[..n]) == HoursTotal(ts, day, n)
  {
    var row := seq(HourCount, h => MakeCell(ts, day, h));
    if n > 0 {
      RowTotalIsHoursTotal(ts, day, n - 1);
      assert row[..n - 1] == DropLast(row[..n]);
    } else {
      assert row[..0] == [];
    }
  }

  lemma {:induction false} GridTotalIsDaysTotal(ts: seq<Trade>, n: nat)
    requires n <= |Days|
    ensures GridTotal(HeatmapData(ts)[..n]) == DaysTotal(ts, n)
  {
    var grid := HeatmapData(ts);
    if n > 0 {
      GridTotalIsDaysTotal(ts, n - 1);
      assert grid[..n - 1] == DropLast(grid[..n]);
      RowTotalIsHoursTotal(ts, Days[n - 1], HourCount);
      assert grid[n - 1] == seq(HourCount, h => MakeCell(ts, Days[n - 1], h))[..HourCount];
    } else {
      assert grid[..0] == [];
    }
  }

  /**
   * Each trade lands in at most one cell and weekend trades (or hours
   * outside 0-23) in none: the cell counts add up to the grid trades,
   * which are at most all the trades.
   */
  lemma GridCountsPartition(ts: seq<Trade>)
    ensures GridTotal(HeatmapData(ts)) == |GridTrades(ts)| <= |ts|
  {
    GridTotalIsDaysTotal(ts, |Days|);
    assert HeatmapData(ts)[..|Days|] == HeatmapData(ts);
    DaysTotalCountsGridTrades(ts);
  }

  /** A weekend trade is in no cell. */
  lemma WeekendInNoCell(ts: seq<Trade>, t: Trade, d: nat, h: nat)
    requires t.createdAt.weekday == Sat || t.createdAt.weekday == Sun
    requires d < 5 && h < 24
    ensures t !in CellTrades(ts, Days[d], h)
  {
    CellTradesExact(ts, Days[d], h, t);
  }

  datatype Hue = Gray | Green | Red | Blue

  /** The inline class rule of a cell. */
  function CellHue(intensity: real, pnl: real): Hue {
    if intensity == 0.0 then Gray else if pnl > 0.0 then Green else if pnl < 0.0 then Red else Blue
  }

  /** The inline `opacity` style of a cell. */
  function Opacity(intensity: real): real {
    if intensity == 0.0 then 0.1 else 0.3 + intensity * 0.7
  }

  /** `getHeatmapColor`'s class: the gray background, or a colour with `opacity-N`. */
  datatype ColorClass = GrayBackground | Tinted(hue: Hue, opacityPercent: int)

  function HeatmapColor(intensity: real, pnl: real): ColorClass {
    if intensity == 0.0 then GrayBackground
    else
      var alpha := 0.3 + intensity * 0.7;
      var pct := Round(alpha * 100.0);
      if pnl > 0.0 then Tinted(Green, pct) else if pnl < 0.0 then Tinted(Red, pct) else Tinted(Blue, pct)
  }

  function ColorHue(c: ColorClass): Hue {
    match c
    case GrayBackground => Gray
    case Tinted(hue, _) => hue
  }

  /**
   * `getHeatmapColor` and the inline rule pick the same colour; on an
   * intensity in (0, 1] its opacity step lies in [30, 100].
   */
  lemma ColorRulesAgree(intensity: real, pnl: real)
    ensures ColorHue(HeatmapColor(intensity, pnl)) == CellHue(intensity, pnl)
    ensures CellHue(intensity, pnl) == Gray <==> intensity == 0.0
    ensures 0.0 < intensity <= 1.0 ==> 30 <= HeatmapColor(intensity, pnl).opacityPercent <= 100
  {
  }

  /** An empty cell is drawn at opacity 0.1, any other cell of the grid above 0.3 and at most 1. */
  lemma CellOpacity(ts: seq<Trade>, d: nat, h: nat)
    requires d < 5 && h < 24
    ensures var c := HeatmapData(ts)[d][h];
      && (c.trades == 0 ==> Opacity(c.intensity) == 0.1)
      && (c.trades > 0 ==> 0.3 < Opacity(c.intensity) <= 1.0)
      && (c.trades >= 5 ==> Opacity(c.intensity) == 1.0)
  {
    IntensityBounds(HeatmapData(ts)[d][h].trades);
  }
}
