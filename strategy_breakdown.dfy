/**
 * The per-strategy breakdown of the performance analyser
 * (`calculateStrategyPerformance`): trades grouped by `strategy_used`, one
 * entry per strategy id in order of first appearance, with each strategy's
 * trade count, win rate, total P/L and average R:R.
 */
module StrategyBreakdown {
  import opened TradeData
  import opened Grouping

  /** The name given to an id that no strategy row names. */
  const UnknownStrategy: string := "Unknown Strategy"

  /** The grouping key: `trade.strategy_used`, and no key when it is falsy. */
  function StrategyKey(t: Trade): Option<string> {
    if Truthy(t.strategyUsed) then t.strategyUsed else None
  }

  /** `if (trade.risk_reward_ratio)`: an R:R is recorded when present and non-zero. */
  predicate RiskRewardRecorded(t: Trade) {
    t.riskRewardRatio.Some? && t.riskRewardRatio.value != 0.0
  }

  function RecordedRiskReward(t: Trade): real {
    if RiskRewardRecorded(t) then t.riskRewardRatio.value else 0.0
  }

  function RiskRewardCount(ts: seq<Trade>): (n: nat)
    ensures n <= |ts|
  {
    if ts == [] then 0 else RiskRewardCount(DropLast(ts)) + (if RiskRewardRecorded(Last(ts)) then 1 else 0)
  }

  /** The running totals the source keeps per strategy id in its `Map`. */
  datatype StrategyStats = StrategyStats(trades: nat, wins: nat, totalPnL: real, totalRR: real, rrCount: nat)

  const NoStats := StrategyStats(0, 0, 0.0, 0.0, 0)

  /** The totals of one group of trades, from the shared reference aggregates. */
  function StatsOf(g: seq<Trade>): StrategyStats {
    StrategyStats(|g|, Wins(g), TotalPnL(g), Sum(g, RecordedRiskReward), RiskRewardCount(g))
  }

  /** One visit of the `forEach` body to a trade of this strategy. */
  function AddTrade(st: StrategyStats, t: Trade): StrategyStats {
    StrategyStats(
      st.trades + 1,
      st.wins + (if IsWin(t) then 1 else 0),
      st.totalPnL + ProfitLoss(t),
      st.totalRR + RecordedRiskReward(t),
      st.rrCount + (if RiskRewardRecorded(t) then 1 else 0))
  }

  lemma StatsOfStep(g: seq<Trade>, t: Trade)
    ensures StatsOf(g + [t]) == AddTrade(StatsOf(g), t)
  {
    DropLastAppend(g, t);
  }

  lemma {:induction false} NoRiskRewardRecorded(g: seq<Trade>)
    requires forall i :: 0 <= i < |g| ==> !RiskRewardRecorded(g[i])
    ensures RiskRewardCount(g) == 0 && Sum(g, RecordedRiskReward) == 0.0
  {
    if g != [] {
      NoRiskRewardRecorded(DropLast(g));
    }
  }

  /** `new Map(strategies.map(s => [s.id, s.name])).get(id)`: a later row with the same id wins. */
  function NameLookup(ss: seq<Strategy>, id: string): Option<string> {
    if ss == [] then None
    else if Last(ss).id == id then Some(Last(ss).name)
    else NameLookup(DropLast(ss), id)
  }

  /** `strategiesMap.get(strategyId) || 'Unknown Strategy'` */
  function StrategyName(ss: seq<Strategy>, id: string): string {
    var found := NameLookup(ss, id);
    if found.Some? && found.value != "" then found.value else UnknownStrategy
  }

  /**
   * The name of a strategy is that of the last row with its id, and the
   * placeholder when there is no such row or that row's name is empty.
   */
  lemma {:induction false} StrategyNameResolution(ss: seq<Strategy>, id: string)
    ensures StrategyName(ss, id) != ""
    ensures (forall j :: 0 <= j < |ss| ==> ss[j].id != id) ==> StrategyName(ss, id) == UnknownStrategy
    ensures forall j :: 0 <= j < |ss| && ss[j].id == id && (forall k :: j < k < |ss| ==> ss[k].id != id) ==>
      StrategyName(ss, id) == if ss[j].name != "" then ss[j].name else UnknownStrategy
  {
    if ss != [] {
      var p := DropLast(ss);
      StrategyNameResolution(p, id);
      assert forall j :: 0 <= j < |p| ==> p[j] == ss[j];
      if Last(ss).id != id {
        assert NameLookup(ss, id) == NameLookup(p, id);
        forall j | 0 <= j < |ss| && ss[j].id == id && (forall k :: j < k < |ss| ==> ss[k].id != id)
          ensures j < |p| && (forall k :: j < k < |p| ==> p[k].id != id)
        {
        }
      }
    }
  }

  datatype StrategyEntry = StrategyEntry(
    strategyId: string,
    strategyName: string,
    trades: nat,
    winRate: real,
    totalPnL: real,
    avgRR: real)

  /** The `.map` callback that turns a `Map` entry into a breakdown entry. */
  function MakeEntry(id: string, st: StrategyStats, ss: seq<Strategy>): StrategyEntry
    requires st.trades > 0
  {
    StrategyEntry(
      id,
      StrategyName(ss, id),
      st.trades,
      Percent(st.wins, st.trades),
      st.totalPnL,
      if st.rrCount > 0 then st.totalRR / st.rrCount as real else 0.0)
  }

  /** The entries for the ids `ids`, in that order. */
  function Entries(ids: seq<string>, ts: seq<Trade>, ss: seq<Strategy>): (es: seq<StrategyEntry>)
    requires forall i :: 0 <= i < |ids| ==> Group(ts, StrategyKey, ids[i]) != []
    ensures |es| == |ids|
  {
    if ids == [] then []
    else
      var id := Last(ids);
      Entries(DropLast(ids), ts, ss) + [MakeEntry(id, StatsOf(Group(ts, StrategyKey, id)), ss)]
  }

  /** The breakdown the source returns, defined from the reference grouping. */
  function StrategyPerformance(ts: seq<Trade>, ss: seq<Strategy>): seq<StrategyEntry> {
    KeysHaveGroups(ts, StrategyKey);
    Entries(Keys(ts, StrategyKey), ts, ss)
  }

  /** The map and its key order hold the totals of every strategy seen in `s`. */
  ghost predicate Tallied(s: seq<Trade>, keys: seq<string>, stats: map<string, StrategyStats>) {
    && keys == Keys(s, StrategyKey)
    && (forall k :: k in stats <==> k in keys)
    && (forall k :: k in stats ==> stats[k] == StatsOf(Group(s, StrategyKey, k)))
  }

  /** Visiting one more trade keeps the totals up to date. */
  lemma TallyStep(s: seq<Trade>, t: Trade, keys: seq<string>, stats: map<string, StrategyStats>)
    requires Tallied(s, keys, stats)
    ensures !Truthy(t.strategyUsed) ==> Tallied(s + [t], keys, stats)
    ensures Truthy(t.strategyUsed) && t.strategyUsed.value in stats ==>
      var k := t.strategyUsed.value;
      Tallied(s + [t], keys, stats[k := AddTrade(stats[k], t)])
    ensures Truthy(t.strategyUsed) && t.strategyUsed.value !in stats ==>
      var k := t.strategyUsed.value;
      Tallied(s + [t], keys + [k], stats[k := AddTrade(NoStats, t)])
  {
    DropLastAppend(s, t);
    if Truthy(t.strategyUsed) {
      var k := t.strategyUsed.value;
      var keys' := if k in stats then keys else keys + [k];
      var stats' := stats[k := AddTrade(if k in stats then stats[k] else NoStats, t)];
      KeysMembership(s, StrategyKey, k);
      assert keys' == Keys(s + [t], StrategyKey);
      forall k' | k' in stats' ensures stats'[k'] == StatsOf(Group(s + [t], StrategyKey, k')) {
        GroupStep(s, t, StrategyKey, k');
        if k' == k {
          StatsOfStep(Group(s, StrategyKey, k), t);
        }
      }
    } else {
      forall k {
        GroupStep(s, t, StrategyKey, k);
      }
    }
  }

  /** The `forEach` pass of `calculateStrategyPerformance`: running totals per strategy in a map. */
  method TallyStrategies(ts: seq<Trade>) returns (keys: seq<string>, stats: map<string, StrategyStats>)
    ensures Tallied(ts, keys, stats)
  {
    keys, stats := [], map[];
    var i := 0;
    assert ts[..0] == [];
    assert Tallied([], keys, stats);
    while i < |ts|
      invariant 0 <= i <= |ts|
      invariant Tallied(ts[..i], keys, stats)
    {
      var t := ts[i];
      assert ts[..i + 1] == ts[..i] + [t];
      TallyStep(ts[..i], t, keys, stats);
      var strategyId := t.strategyUsed;
      if Truthy(strategyId) {
        var k := strategyId.value;
        if k !in stats {
          keys := keys + [k];
          stats := stats[k := AddTrade(NoStats, t)];
        } else {
          stats := stats[k := AddTrade(stats[k], t)];
        }
      }
      i := i + 1;
    }
    assert ts[..i] == ts;
  }

  /** `calculateStrategyPerformance`: one pass that updates a map of running totals, then the entries in key order. */
  method CalculateStrategyPerformance(ts: seq<Trade>, ss: seq<Strategy>) returns (r: seq<StrategyEntry>)
    ensures r == StrategyPerformance(ts, ss)
  {
    var keys, stats := TallyStrategies(ts);
    KeysHaveGroups(ts, StrategyKey);
    r := [];
    var j := 0;
    while j < |keys|
      invariant 0 <= j <= |keys|
      invariant r == Entries(keys[..j], ts, ss)
    {
      assert keys[..j + 1] == keys[..j] + [keys[j]];
      DropLastAppend(keys[..j], keys[j]);
      r := r + [MakeEntry(keys[j], stats[keys[j]], ss)];
      j := j + 1;
    }
    assert keys[..j] == keys;
  }

  function SumEntryTrades(es: seq<StrategyEntry>): nat {
    if es == [] then 0 else SumEntryTrades(DropLast(es)) + Last(es).trades
  }

  function SumEntryPnL(es: seq<StrategyEntry>): real {
    if es == [] then 0.0 else SumEntryPnL(DropLast(es)) + Last(es).totalPnL
  }

  lemma {:induction false} EntriesAt(ids: seq<string>, ts: seq<Trade>, ss: seq<Strategy>, i: nat)
    requires forall j :: 0 <= j < |ids| ==> Group(ts, StrategyKey, ids[j]) != []
    requires i < |ids|
    ensures Entries(ids, ts, ss)[i] == MakeEntry(ids[i], StatsOf(Group(ts, StrategyKey, ids[i])), ss)
  {
    if i < |ids| - 1 {
      var p := DropLast(ids);
      assert p[i] == ids[i];
      EntriesAt(p, ts, ss, i);
    }
  }

  lemma {:induction false} EntriesSums(ids: seq<string>, ts: seq<Trade>, ss: seq<Strategy>)
    requires forall j :: 0 <= j < |ids| ==> Group(ts, StrategyKey, ids[j]) != []
    ensures SumEntryTrades(Entries(ids, ts, ss)) == GroupSizes(ids, ts, StrategyKey)
    ensures SumEntryPnL(Entries(ids, ts, ss)) == GroupMeasures(ids, ts, StrategyKey, ProfitLoss)
  {
    if ids != [] {
      var p := DropLast(ids);
      assert forall j :: 0 <= j < |p| ==> p[j] == ids[j];
      EntriesSums(p, ts, ss);
      var e := MakeEntry(Last(ids), StatsOf(Group(ts, StrategyKey, Last(ids))), ss);
      DropLastAppend(Entries(p, ts, ss), e);
    }
  }

  /** The number of trades whose `strategy_used` is truthy. */
  function TradesWithStrategy(ts: seq<Trade>): (n: nat)
    ensures n <= |ts|
  {
    if ts == [] then 0 else TradesWithStrategy(DropLast(ts)) + (if Truthy(Last(ts).strategyUsed) then 1 else 0)
  }

  lemma {:induction false} KeyedByStrategy(ts: seq<Trade>)
    ensures |Keyed(ts, StrategyKey)| == TradesWithStrategy(ts)
  {
    if ts != [] {
      KeyedByStrategy(DropLast(ts));
      DropLastAppend(Keyed(DropLast(ts), StrategyKey), Last(ts));
    }
  }

  /** The breakdown's ids are the grouping keys, in the same order. */
  lemma StrategyIdsAreKeys(ts: seq<Trade>, ss: seq<Strategy>)
    ensures |StrategyPerformance(ts, ss)| == |Keys(ts, StrategyKey)|
    ensures forall i :: 0 <= i < |StrategyPerformance(ts, ss)| ==>
      StrategyPerformance(ts, ss)[i].strategyId == Keys(ts, StrategyKey)[i]
  {
    KeysHaveGroups(ts, StrategyKey);
    forall i | 0 <= i < |StrategyPerformance(ts, ss)|
      ensures StrategyPerformance(ts, ss)[i].strategyId == Keys(ts, StrategyKey)[i]
    {
      EntriesAt(Keys(ts, StrategyKey), ts, ss, i);
    }
  }

  /** The breakdown has one entry per distinct strategy id, in order of first appearance. */
  lemma StrategyEntriesInFirstAppearanceOrder(ts: seq<Trade>, ss: seq<Strategy>)
    ensures var r := StrategyPerformance(ts, ss);
      && (forall i, j :: 0 <= i < j < |r| ==> r[i].strategyId != r[j].strategyId)
      && (forall i, j :: 0 <= i < j < |r| ==> AppearsBefore(ts, StrategyKey, r[i].strategyId, r[j].strategyId))
  {
    StrategyIdsAreKeys(ts, ss);
    KeysInFirstAppearanceOrder(ts, StrategyKey);
  }

  /** An id has an entry exactly when some trade names it as its (non-empty) strategy. */
  lemma StrategyEntryIff(ts: seq<Trade>, ss: seq<Strategy>, id: string)
    ensures (exists i :: 0 <= i < |StrategyPerformance(ts, ss)| && StrategyPerformance(ts, ss)[i].strategyId == id)
      <==> id != "" && exists p :: 0 <= p < |ts| && ts[p].strategyUsed == Some(id)
  {
    var r := StrategyPerformance(ts, ss);
    var ks := Keys(ts, StrategyKey);
    StrategyIdsAreKeys(ts, ss);
    KeysMembership(ts, StrategyKey, id);
    if id in ks {
      var i :| 0 <= i < |ks| && ks[i] == id;
      assert r[i].strategyId == id;
    }
    if exists p :: 0 <= p < |ts| && ts[p].strategyUsed == Some(id) && id != "" {
      var p :| 0 <= p < |ts| && ts[p].strategyUsed == Some(id);
      assert StrategyKey(ts[p]) == Some(id);
    }
  }

  /**
   * The entry counts add up to the number of trades with a strategy, which is
   * at most the number of trades, and the entry P/L adds up to their P/L.
   */
  lemma StrategyCountsCoverStrategyTrades(ts: seq<Trade>, ss: seq<Strategy>)
    ensures SumEntryTrades(StrategyPerformance(ts, ss)) == TradesWithStrategy(ts) <= |ts|
    ensures SumEntryPnL(StrategyPerformance(ts, ss)) == TotalPnL(Keyed(ts, StrategyKey))
  {
    KeysHaveGroups(ts, StrategyKey);
    EntriesSums(Keys(ts, StrategyKey), ts, ss);
    GroupsPartitionKeyed(ts, StrategyKey);
    GroupMeasuresPartitionKeyed(ts, StrategyKey, ProfitLoss);
    KeyedByStrategy(ts);
  }

  /**
   * Every entry covers at least one trade, has a win rate in [0, 100], an
   * average R:R of 0 when none of its trades records one, and a non-empty name
   * that falls back to the placeholder for an id no strategy row has.
   */
  lemma StrategyEntryBounds(ts: seq<Trade>, ss: seq<Strategy>, i: nat)
    requires i < |StrategyPerformance(ts, ss)|
    ensures var e := StrategyPerformance(ts, ss)[i];
      && e.trades >= 1
      && 0.0 <= e.winRate <= 100.0
      && ((forall p :: 0 <= p < |ts| && ts[p].strategyUsed == Some(e.strategyId) ==> !RiskRewardRecorded(ts[p])) ==> e.avgRR == 0.0)
      && e.strategyName != ""
      && ((forall j :: 0 <= j < |ss| ==> ss[j].id != e.strategyId) ==> e.strategyName == UnknownStrategy)
  {
    var ks := Keys(ts, StrategyKey);
    KeysHaveGroups(ts, StrategyKey);
    EntriesAt(ks, ts, ss, i);
    var g := Group(ts, StrategyKey, ks[i]);
    var st := StatsOf(g);
    var e := StrategyPerformance(ts, ss)[i];
    assert e == MakeEntry(ks[i], st, ss);
    assert st.wins <= st.trades;
    PercentBounds(st.wins, st.trades);
    StrategyNameResolution(ss, ks[i]);
    if forall p :: 0 <= p < |ts| && ts[p].strategyUsed == Some(e.strategyId) ==> !RiskRewardRecorded(ts[p]) {
      forall q | 0 <= q < |g| ensures !RiskRewardRecorded(g[q]) {
        GroupMembers(ts, StrategyKey, ks[i], q);
      }
      NoRiskRewardRecorded(g);
    }
  }

}
