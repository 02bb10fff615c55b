/**
 * The per-month breakdown of the performance analyser
 * (`calculateMonthlyPerformance`): trades grouped by the `YYYY-MM` key of
 * their creation date, each month with its trade count, win rate and P/L,
 * and the result sorted by month key.
 */
module MonthlyBreakdown {
  import opened TradeData
  import opened Grouping

  /** The grouping key: every trade has a month. */
  function MonthKey(t: Trade): Option<string> {
    Some(t.createdAt.month)
  }

  /** The running totals the source keeps per month in its `Map`. */
  datatype MonthStats = MonthStats(trades: nat, wins: nat, pnl: real)

  const NoMonthStats := MonthStats(0, 0, 0.0)

  function MonthStatsOf(g: seq<Trade>): MonthStats {
    MonthStats(|g|, Wins(g), TotalPnL(g))
  }

  /** One visit of the `forEach` body to a trade of this month. */
  function AddMonthTrade(st: MonthStats, t: Trade): MonthStats {
    MonthStats(st.trades + 1, st.wins + (if IsWin(t) then 1 else 0), st.pnl + ProfitLoss(t))
  }

  lemma MonthStatsOfStep(g: seq<Trade>, t: Trade)
    ensures MonthStatsOf(g + [t]) == AddMonthTrade(MonthStatsOf(g), t)
  {
    DropLastAppend(g, t);
  }

  datatype MonthEntry = MonthEntry(month: string, trades: nat, winRate: real, pnl: real)

  /** The `.map` callback that turns a `Map` entry into a breakdown entry. */
  function MakeMonthEntry(month: string, st: MonthStats): MonthEntry
    requires st.trades > 0
  {
    MonthEntry(month, st.trades, Percent(st.wins, st.trades), st.pnl)
  }

  /** The entries for the months `ks`, in that order. */
  function MonthEntries(ks: seq<string>, ts: seq<Trade>): (es: seq<MonthEntry>)
    requires forall i :: 0 <= i < |ks| ==> Group(ts, MonthKey, ks[i]) != []
    ensures |es| == |ks|
  {
    if ks == [] then []
    else
      var k := Last(ks);
      MonthEntries(DropLast(ks), ts) + [MakeMonthEntry(k, MonthStatsOf(Group(ts, MonthKey, k)))]
  }

  lemma {:induction false} MonthEntriesAt(ks: seq<string>, ts: seq<Trade>, i: nat)
    requires forall j :: 0 <= j < |ks| ==> Group(ts, MonthKey, ks[j]) != []
    requires i < |ks|
    ensures MonthEntries(ks, ts)[i] == MakeMonthEntry(ks[i], MonthStatsOf(Group(ts, MonthKey, ks[i])))
  {
    if i < |ks| - 1 {
      var p := DropLast(ks);
      assert p[i] == ks[i];
      MonthEntriesAt(p, ts, i);
    }
  }

  /** Code-point lexicographic order on strings; on `YYYY-MM` keys it is chronological order. */
  predicate Precedes(a: string, b: string) {
    if a == [] then b != []
    else if b == [] then false
    else if a[0] != b[0] then a[0] < b[0]
    else Precedes(a[1..], b[1..])
  }

  lemma {:induction false} PrecedesIrreflexive(a: string)
    ensures !Precedes(a, a)
  {
    if a != [] {
      PrecedesIrreflexive(a[1..]);
    }
  }

  lemma {:induction false} PrecedesTotal(a: string, b: string)
    requires a != b
    ensures Precedes(a, b) || Precedes(b, a)
  {
    if a != [] && b != [] && a[0] == b[0] {
      assert a == [a[0]] + a[1..] && b == [b[0]] + b[1..];
      PrecedesTotal(a[1..], b[1..]);
    }
  }

  lemma {:induction false} PrecedesTransitive(a: string, b: string, c: string)
    requires Precedes(a, b) && Precedes(b, c)
    ensures Precedes(a, c)
  {
    if a != [] && a[0] == b[0] && b[0] == c[0] {
      PrecedesTransitive(a[1..], b[1..], c[1..]);
    }
  }

  /** No two entries share a month key. */
  predicate DistinctMonths(es: seq<MonthEntry>) {
    forall i, j :: 0 <= i < j < |es| ==> es[i].month != es[j].month
  }

  /** Strictly ascending month keys. */
  ghost predicate AscendingMonths(es: seq<MonthEntry>) {
    forall i, j :: 0 <= i < j < |es| ==> Precedes(es[i].month, es[j].month)
  }

  function SumMonthTrades(es: seq<MonthEntry>): nat {
    if es == [] then 0 else SumMonthTrades(DropLast(es)) + Last(es).trades
  }

  function SumMonthPnL(es: seq<MonthEntry>): real {
    if es == [] then 0.0 else SumMonthPnL(DropLast(es)) + Last(es).pnl
  }

  /** Inserts `x` after the entries whose key does not come after its own. */
  function InsertByMonth(s: seq<MonthEntry>, x: MonthEntry): (r: seq<MonthEntry>)
    ensures |r| == |s| + 1
  {
    if s == [] || !Precedes(x.month, Last(s).month) then s + [x]
    else InsertByMonth(DropLast(s), x) + [Last(s)]
  }

  /** `.sort((a, b) => a.month.localeCompare(b.month))`, as an insertion sort. */
  function SortByMonth(es: seq<MonthEntry>): (r: seq<MonthEntry>)
    ensures |r| == |es|
  {
    if es == [] then [] else InsertByMonth(SortByMonth(DropLast(es)), Last(es))
  }

  /** Insertion only adds `x`: the result is a permutation of `s + [x]`, with the same sums. */
  lemma {:induction false} InsertByMonthPermutes(s: seq<MonthEntry>, x: MonthEntry)
    ensures multiset(InsertByMonth(s, x)) == multiset(s) + multiset{x}
    ensures SumMonthTrades(InsertByMonth(s, x)) == SumMonthTrades(s) + x.trades
    ensures SumMonthPnL(InsertByMonth(s, x)) == SumMonthPnL(s) + x.pnl
  {
    if s == [] || !Precedes(x.month, Last(s).month) {
      DropLastAppend(s, x);
    } else {
      var p, l := DropLast(s), Last(s);
      assert s == p + [l];
      InsertByMonthPermutes(p, x);
      DropLastAppend(InsertByMonth(p, x), l);
    }
  }

  /** Inserting a new month key into ascending entries keeps them ascending. */
  lemma {:induction false} InsertByMonthAscending(s: seq<MonthEntry>, x: MonthEntry)
    requires AscendingMonths(s)
    requires forall i :: 0 <= i < |s| ==> s[i].month != x.month
    ensures AscendingMonths(InsertByMonth(s, x))
  {
    if s == [] || !Precedes(x.month, Last(s).month) {
      if s != [] {
        PrecedesTotal(x.month, Last(s).month);
        forall i | 0 <= i < |s| ensures Precedes(s[i].month, x.month) {
          if i < |s| - 1 {
            PrecedesTransitive(s[i].month, Last(s).month, x.month);
          }
        }
      }
    } else {
      var p, l := DropLast(s), Last(s);
      assert s == p + [l];
      assert forall i :: 0 <= i < |p| ==> p[i] == s[i];
      InsertByMonthAscending(p, x);
      InsertByMonthPermutes(p, x);
      var q := InsertByMonth(p, x);
      assert InsertByMonth(s, x) == q + [l];
      forall i | 0 <= i < |q| ensures Precedes(q[i].month, l.month) {
        assert q[i] in multiset(q);
        assert q[i] in p || q[i] == x;
      }
    }
  }

  lemma PermutationAvoidsMonth(a: seq<MonthEntry>, b: seq<MonthEntry>, m: string)
    requires multiset(a) == multiset(b)
    requires forall i :: 0 <= i < |a| ==> a[i].month != m
    ensures forall i :: 0 <= i < |b| ==> b[i].month != m
  {
    forall i | 0 <= i < |b| ensures b[i].month != m {
      assert b[i] in multiset(a);
    }
  }

  /** Inserting the last entry into the sorted rest: the step of `SortByMonthCorrect`. */
  lemma SortStep(p: seq<MonthEntry>, sp: seq<MonthEntry>, x: MonthEntry)
    requires AscendingMonths(sp) && multiset(sp) == multiset(p)
    requires SumMonthTrades(sp) == SumMonthTrades(p) && SumMonthPnL(sp) == SumMonthPnL(p)
    requires forall i :: 0 <= i < |p| ==> p[i].month != x.month
    ensures AscendingMonths(InsertByMonth(sp, x))
    ensures multiset(InsertByMonth(sp, x)) == multiset(p + [x])
    ensures SumMonthTrades(InsertByMonth(sp, x)) == SumMonthTrades(p + [x])
    ensures SumMonthPnL(InsertByMonth(sp, x)) == SumMonthPnL(p + [x])
  {
    PermutationAvoidsMonth(p, sp, x.month);
    InsertByMonthAscending(sp, x);
    InsertByMonthPermutes(sp, x);
    DropLastAppend(p, x);
  }

  lemma {:induction false} SortByMonthCorrect(es: seq<MonthEntry>)
    requires DistinctMonths(es)
    ensures AscendingMonths(SortByMonth(es))
    ensures multiset(SortByMonth(es)) == multiset(es)
    ensures SumMonthTrades(SortByMonth(es)) == SumMonthTrades(es)
    ensures SumMonthPnL(SortByMonth(es)) == SumMonthPnL(es)
  {
    if es != [] {
      var p, x := DropLast(es), Last(es);
      assert es == p + [x];
      assert forall i :: 0 <= i < |p| ==> p[i] == es[i];
      SortByMonthCorrect(p);
      SortStep(p, SortByMonth(p), x);
    }
  }

  /** The breakdown the source returns, defined from the reference grouping. */
  function MonthlyPerformance(ts: seq<Trade>): seq<MonthEntry> {
    KeysHaveGroups(ts, MonthKey);
    SortByMonth(MonthEntries(Keys(ts, MonthKey), ts))
  }

  /** The map and its key order hold the totals of every month seen in `s`. */
  ghost predicate TalliedMonths(s: seq<Trade>, keys: seq<string>, stats: map<string, MonthStats>) {
    && keys == Keys(s, MonthKey)
    && (forall k :: k in stats <==> k in keys)
    && (forall k :: k in stats ==> stats[k] == MonthStatsOf(Group(s, MonthKey, k)))
  }

  /** Visiting one more trade keeps the totals up to date. */
  lemma TallyMonthStep(s: seq<Trade>, t: Trade, keys: seq<string>, stats: map<string, MonthStats>)
    requires TalliedMonths(s, keys, stats)
    ensures var k := t.createdAt.month;
      k in stats ==> TalliedMonths(s + [t], keys, stats[k := AddMonthTrade(stats[k], t)])
    ensures var k := t.createdAt.month;
      k !in stats ==> TalliedMonths(s + [t], keys + [k], stats[k := AddMonthTrade(NoMonthStats, t)])
  {
    var k := t.createdAt.month;
    var keys' := if k in stats then keys else keys + [k];
    var stats' := stats[k := AddMonthTrade(if k in stats then stats[k] else NoMonthStats, t)];
    DropLastAppend(s, t);
    KeysMembership(s, MonthKey, k);
    assert keys' == Keys(s + [t], MonthKey);
    forall k' | k' in stats' ensures stats'[k'] == MonthStatsOf(Group(s + [t], MonthKey, k')) {
      GroupStep(s, t, MonthKey, k');
      if k' == k {
        MonthStatsOfStep(Group(s, MonthKey, k), t);
      }
    }
  }

  /** The `forEach` pass of `calculateMonthlyPerformance`: running totals per month in a map. */
  method TallyMonths(ts: seq<Trade>) returns (keys: seq<string>, stats: map<string, MonthStats>)
    ensures TalliedMonths(ts, keys, stats)
  {
    keys, stats := [], map[];
    var i := 0;
    assert ts[..0] == [];
    assert TalliedMonths([], keys, stats);
    while i < |ts|
      invariant 0 <= i <= |ts|
      invariant TalliedMonths(ts[..i], keys, stats)
    {
      var t := ts[i];
      assert ts[..i + 1] == ts[..i] + [t];
      TallyMonthStep(ts[..i], t, keys, stats);
      var month := t.createdAt.month;
      if month !in stats {
        keys := keys + [month];
        stats := stats[month := AddMonthTrade(NoMonthStats, t)];
      } else {
        stats := stats[month := AddMonthTrade(stats[month], t)];
      }
      i := i + 1;
    }
    assert ts[..i] == ts;
  }

  /** The `.map` over the tallied months, in the order they were first seen. */
  method CollectMonthEntries(ghost ts: seq<Trade>, keys: seq<string>, stats: map<string, MonthStats>)
    returns (entries: seq<MonthEntry>)
    requires forall i :: 0 <= i < |keys| ==> keys[i] in stats && stats[keys[i]] == MonthStatsOf(Group(ts, MonthKey, keys[i]))
    requires forall i :: 0 <= i < |keys| ==> Group(ts, MonthKey, keys[i]) != []
    ensures entries == MonthEntries(keys, ts)
  {
    entries := [];
    var j := 0;
    while j < |keys|
      invariant 0 <= j <= |keys|
      invariant entries == MonthEntries(keys[..j], ts)
    {
      var month := keys[j];
      assert keys[..j + 1] == keys[..j] + [month];
      DropLastAppend(keys[..j], month);
      entries := entries + [MakeMonthEntry(month, stats[month])];
      j := j + 1;
    }
    assert keys[..j] == keys;
  }

  /** `calculateMonthlyPerformance`: one pass that updates a map of running totals, then the entries sorted by month. */
  method CalculateMonthlyPerformance(ts: seq<Trade>) returns (r: seq<MonthEntry>)
    ensures r == MonthlyPerformance(ts)
  {
    var keys, stats := TallyMonths(ts);
    KeysHaveGroups(ts, MonthKey);
    var entries := CollectMonthEntries(ts, keys, stats);
    r := SortByMonth(entries);
  }

  lemma {:induction false} MonthEntriesSums(ks: seq<string>, ts: seq<Trade>)
    requires forall i :: 0 <= i < |ks| ==> Group(ts, MonthKey, ks[i]) != []
    ensures SumMonthTrades(MonthEntries(ks, ts)) == GroupSizes(ks, ts, MonthKey)
    ensures SumMonthPnL(MonthEntries(ks, ts)) == GroupMeasures(ks, ts, MonthKey, ProfitLoss)
  {
    if ks != [] {
      var p := DropLast(ks);
      assert forall i :: 0 <= i < |p| ==> p[i] == ks[i];
      MonthEntriesSums(p, ts);
      var e := MakeMonthEntry(Last(ks), MonthStatsOf(Group(ts, MonthKey, Last(ks))));
      DropLastAppend(MonthEntries(p, ts), e);
    }
  }

  lemma {:induction false} EveryTradeHasAMonth(ts: seq<Trade>)
    ensures Keyed(ts, MonthKey) == ts
  {
    if ts != [] {
      EveryTradeHasAMonth(DropLast(ts));
      assert ts == DropLast(ts) + [Last(ts)];
    }
  }

  /** The unsorted entries, before the library sort. */
  lemma MonthEntriesDistinct(ts: seq<Trade>)
    ensures forall i :: 0 <= i < |Keys(ts, MonthKey)| ==> Group(ts, MonthKey, Keys(ts, MonthKey)[i]) != []
    ensures DistinctMonths(MonthEntries(Keys(ts, MonthKey), ts))
  {
    var ks := Keys(ts, MonthKey);
    KeysHaveGroups(ts, MonthKey);
    forall i | 0 <= i < |ks| ensures MonthEntries(ks, ts)[i].month == ks[i] {
      MonthEntriesAt(ks, ts, i);
    }
  }

  /** Month keys are strictly ascending, hence distinct. */
  lemma MonthsStrictlyAscending(ts: seq<Trade>)
    ensures var r := MonthlyPerformance(ts);
      forall i, j :: 0 <= i < j < |r| ==> Precedes(r[i].month, r[j].month) && r[i].month != r[j].month
  {
    MonthEntriesDistinct(ts);
    SortByMonthCorrect(MonthEntries(Keys(ts, MonthKey), ts));
    var r := MonthlyPerformance(ts);
    forall i, j | 0 <= i < j < |r| ensures r[i].month != r[j].month {
      PrecedesIrreflexive(r[i].month);
    }
  }

  /** The monthly trade counts add up to all trades, and the monthly P/L to the total P/L. */
  lemma MonthsCoverAllTrades(ts: seq<Trade>)
    ensures SumMonthTrades(MonthlyPerformance(ts)) == |ts|
    ensures SumMonthPnL(MonthlyPerformance(ts)) == TotalPnL(ts)
  {
    var ks := Keys(ts, MonthKey);
    MonthEntriesDistinct(ts);
    SortByMonthCorrect(MonthEntries(ks, ts));
    MonthEntriesSums(ks, ts);
    GroupsPartitionKeyed(ts, MonthKey);
    GroupMeasuresPartitionKeyed(ts, MonthKey, ProfitLoss);
    EveryTradeHasAMonth(ts);
  }

  /** A sorted entry is the unsorted entry of one of the month keys. */
  lemma SortedEntryHasKey(ts: seq<Trade>, e: MonthEntry) returns (i: nat)
    requires e in MonthlyPerformance(ts)
    ensures i < |Keys(ts, MonthKey)| && Group(ts, MonthKey, Keys(ts, MonthKey)[i]) != []
    ensures e == MakeMonthEntry(Keys(ts, MonthKey)[i], MonthStatsOf(Group(ts, MonthKey, Keys(ts, MonthKey)[i])))
  {
    var ks := Keys(ts, MonthKey);
    MonthEntriesDistinct(ts);
    var es := MonthEntries(ks, ts);
    SortByMonthCorrect(es);
    assert e in multiset(es);
    i :| 0 <= i < |es| && es[i] == e;
    MonthEntriesAt(ks, ts, i);
  }

  /**
   * Every month entry holds the statistics of its month's trades, covers at
   * least one of them and has a win rate in [0, 100].
   */
  lemma MonthEntryBounds(ts: seq<Trade>, e: MonthEntry)
    requires e in MonthlyPerformance(ts)
    ensures e.trades >= 1 && 0.0 <= e.winRate <= 100.0
    ensures exists p :: 0 <= p < |ts| && ts[p].createdAt.month == e.month
    ensures Group(ts, MonthKey, e.month) != [] && e == MakeMonthEntry(e.month, MonthStatsOf(Group(ts, MonthKey, e.month)))
  {
    var i := SortedEntryHasKey(ts, e);
    var k := Keys(ts, MonthKey)[i];
    var st := MonthStatsOf(Group(ts, MonthKey, k));
    PercentBounds(st.wins, st.trades);
    KeysMembership(ts, MonthKey, k);
  }

  /** An entry's month is the month of some trade. */
  lemma EntryHasTrade(ts: seq<Trade>, i: nat)
    requires i < |MonthlyPerformance(ts)|
    ensures exists p :: 0 <= p < |ts| && ts[p].createdAt.month == MonthlyPerformance(ts)[i].month
  {
    var ks := Keys(ts, MonthKey);
    MonthEntriesDistinct(ts);
    var es := MonthEntries(ks, ts);
    SortByMonthCorrect(es);
    var r := MonthlyPerformance(ts);
    assert r[i] in multiset(es);
    var j :| 0 <= j < |es| && es[j] == r[i];
    MonthEntriesAt(ks, ts, j);
    KeysMembership(ts, MonthKey, ks[j]);
  }

  /** Every trade's month has an entry. */
  lemma TradeHasEntry(ts: seq<Trade>, p: nat)
    requires p < |ts|
    ensures exists i :: 0 <= i < |MonthlyPerformance(ts)| && MonthlyPerformance(ts)[i].month == ts[p].createdAt.month
  {
    var month := ts[p].createdAt.month;
    var ks := Keys(ts, MonthKey);
    MonthEntriesDistinct(ts);
    var es := MonthEntries(ks, ts);
    SortByMonthCorrect(es);
    var r := MonthlyPerformance(ts);
    assert MonthKey(ts[p]) == Some(month);
    KeysMembership(ts, MonthKey, month);
    var j :| 0 <= j < |ks| && ks[j] == month;
    MonthEntriesAt(ks, ts, j);
    assert es[j] in multiset(r);
    var i :| 0 <= i < |r| && r[i] == es[j];
  }

  /** A month has an entry exactly when some trade was created in it. */
  lemma MonthEntryIff(ts: seq<Trade>, month: string)
    ensures (exists i :: 0 <= i < |MonthlyPerformance(ts)| && MonthlyPerformance(ts)[i].month == month)
      <==> exists p :: 0 <= p < |ts| && ts[p].createdAt.month == month
  {
    var r := MonthlyPerformance(ts);
    if exists i :: 0 <= i < |r| && r[i].month == month {
      var i :| 0 <= i < |r| && r[i].month == month;
      EntryHasTrade(ts, i);
    }
    if exists p :: 0 <= p < |ts| && ts[p].createdAt.month == month {
      var p :| 0 <= p < |ts| && ts[p].createdAt.month == month;
      TradeHasEntry(ts, p);
    }
  }
}
