# Trading journal analytics, modelled in Dafny

This project models the analytical core of a trading-journal web application.

- **`PerformanceAnalysisService`** turns a user's trades and strategies into a performance report. The report has:
  - headline metrics: win rate, total P/L, average R:R, profit factor with its `999` sentinel, and average holding time;
  - a per-strategy breakdown in first-appearance order;
  - a monthly breakdown sorted by month;
  - the checklist correlation;
  - rule-based insights and a performance label derived from a 0–100 score.

  It also has the empty-input branch and the cache row it upserts.
- **The dashboard's trade summary** counts results, rounds the win rate, sums signed pips, averages them, picks a verdict and builds the three bar-chart bars.
- **The trade form** classifies a trade as WIN, LOSS or BREAK EVEN from its prices and direction. It also submits the trade, with an invalid-price guard and a field reset.
- **The trading heatmap** has five weekday rows by 24 hour columns. Each cell has a trade count, P/L and intensity, plus a colour and opacity rule.
- **The affiliate popup** is a state machine. It opens unless it is disabled, the user has already supported, or it was shown less than three days ago. It has three buttons: support, don't show again and close.
- **The performance report page** has the label badge colours, `formatDuration`, and the guards that show a metric, `N/A` or `∞`.

Pure computations are functions over datatypes, with lemmas about them. The service's `forEach` passes over a `Map` are methods with loops. Each of those methods is proved equal to a reference definition built on a generic first-appearance grouping (`Grouping`). The form and the popup update state in place, so each is a class with `modifies` clauses.

In the service model:
- Rows are `Trade` values. A nullable column is an `Option`.
- `trade.profit_loss || 0` is `ProfitLoss`.
- JavaScript truthiness of an optional string is `Truthy`: absent, or the empty string, is falsy.

A timestamp is given already split into the pieces the source reads:
- the `YYYY-MM` key of `toISOString().substring(0, 7)`;
- the local weekday;
- the local hour.

`Math.round` is `(x + 0.5).Floor`.

What the service does in the cases a reader might wonder about:
- For an empty trade list, the label is `Improving` and the single insight is the start-trading message.
- The label is the 80/65/50/35 cascade over the points of `calculatePerformanceScore`.
- Strategies are listed in order of first appearance. The best-strategy insight takes the highest win rate, the earliest entry on a tie.
- Insights come in the order win rate, best strategy, checklist, profit factor.
- With profit and no loss, the profit factor is the finite sentinel `999`.

## Model

| member | source | states |
|---|---|---|
| TradeData.PercentBounds | src/services/performanceAnalysis.ts:95 | `(part / whole) * 100` lies in [0, 100], and is 0 exactly with no part and 100 exactly with all of it |
| TradeData.WinsExtremes | src/services/performanceAnalysis.ts:94 | the win count is 0 exactly when no trade is a WIN, and equals the trade count exactly when all are |
| Grouping.Keys | src/services/performanceAnalysis.ts:141-165 | the `Map` keys are distinct |
| Grouping.Group | src/services/performanceAnalysis.ts:143-165 | a group holds only trades with its key, and no more trades than there are |
| Grouping.KeysMembership | src/services/performanceAnalysis.ts:147-155 | a key is in the `Map` exactly when some trade carries it, exactly when its group is non-empty |
| Grouping.KeysInFirstAppearanceOrder | src/services/performanceAnalysis.ts:147-155 | `Map` keys come in the order of their first appearance in the trades |
| Grouping.GroupsPartitionKeyed | src/services/performanceAnalysis.ts:143-165 | the group sizes add up to the number of trades that have a key |
| Grouping.GroupMeasuresPartitionKeyed | src/services/performanceAnalysis.ts:143-165 | the per-group sums add up to the sum over all keyed trades |
| Grouping.GroupMembers | src/services/performanceAnalysis.ts:143-165 | every member of a group is one of the input trades |
| Grouping.KeysHaveGroups | src/services/performanceAnalysis.ts:147-158 | every key's group is non-empty, so no per-key division is by zero |
| StrategyBreakdown.StrategyNameResolution | src/services/performanceAnalysis.ts:140-169 | a name is never empty; an id no strategy row names gets 'Unknown Strategy'; otherwise the last row with that id gives the name unless that name is empty |
| StrategyBreakdown.TallyStep | src/services/performanceAnalysis.ts:143-165 | a trade without a truthy `strategy_used` changes no totals; otherwise its strategy's totals gain exactly that trade, with the key added on first sight |
| StrategyBreakdown.TallyStrategies | src/services/performanceAnalysis.ts:141-165 | after the pass, the `Map` and its key order hold exactly the reference totals of every strategy |
| StrategyBreakdown.CalculateStrategyPerformance | src/services/performanceAnalysis.ts:139-175 | the result equals the reference breakdown `StrategyPerformance` |
| StrategyBreakdown.StrategyIdsAreKeys | src/services/performanceAnalysis.ts:167-168 | the breakdown's ids are the distinct strategy ids, in grouping order |
| StrategyBreakdown.StrategyEntriesInFirstAppearanceOrder | src/services/performanceAnalysis.ts:167-174 | ids are distinct, and an earlier entry's id first appears before a later entry's |
| StrategyBreakdown.StrategyEntryIff | src/services/performanceAnalysis.ts:143-147 | an id has an entry exactly when some trade has it as a non-empty `strategy_used` |
| StrategyBreakdown.StrategyCountsCoverStrategyTrades | src/services/performanceAnalysis.ts:143-165 | the entries' trade counts add up to the trades with a strategy, and their P/L to those trades' P/L |
| StrategyBreakdown.StrategyEntryBounds | src/services/performanceAnalysis.ts:167-174 | each entry has at least one trade, a win rate in [0, 100], avgRR 0 when none of its trades recorded an R:R, and a non-empty name that is 'Unknown Strategy' when no row has its id |
| MonthlyBreakdown.MonthEntriesAt | src/services/performanceAnalysis.ts:193-199 | entry `i` is built from the totals of the `i`-th month key |
| MonthlyBreakdown.PrecedesTotal | src/services/performanceAnalysis.ts:200 | the sort's comparison orders any two distinct keys |
| MonthlyBreakdown.PrecedesTransitive | src/services/performanceAnalysis.ts:200 | the sort's comparison is transitive |
| MonthlyBreakdown.InsertByMonthPermutes | src/services/performanceAnalysis.ts:200 | one insertion step adds exactly one entry, keeping trade and P/L sums |
| MonthlyBreakdown.InsertByMonthAscending | src/services/performanceAnalysis.ts:200 | inserting a new month into ascending entries keeps them ascending |
| MonthlyBreakdown.SortByMonthCorrect | src/services/performanceAnalysis.ts:200 | the sort returns ascending months that permute its input and keep both sums |
| MonthlyBreakdown.TallyMonthStep | src/services/performanceAnalysis.ts:180-191 | each visit adds the trade to its month's totals, adding the month key on first sight |
| MonthlyBreakdown.TallyMonths | src/services/performanceAnalysis.ts:178-191 | after the pass, the `Map` and its key order hold the reference totals of every month |
| MonthlyBreakdown.CollectMonthEntries | src/services/performanceAnalysis.ts:193-199 | the `.map` gives one entry per tallied month, in key order |
| MonthlyBreakdown.CalculateMonthlyPerformance | src/services/performanceAnalysis.ts:177-201 | the result equals the reference breakdown `MonthlyPerformance` |
| MonthlyBreakdown.MonthEntriesDistinct | src/services/performanceAnalysis.ts:183-186 | before sorting, every month key has trades and no key repeats |
| MonthlyBreakdown.MonthsStrictlyAscending | src/services/performanceAnalysis.ts:200 | the month keys of the breakdown strictly ascend, hence are distinct |
| MonthlyBreakdown.MonthsCoverAllTrades | src/services/performanceAnalysis.ts:180-200 | the monthly counts add up to all trades, and the monthly P/L to the total P/L |
| MonthlyBreakdown.SortedEntryHasKey | src/services/performanceAnalysis.ts:193-200 | every entry of the sorted breakdown is the entry built for one of the month keys from that month's trades |
| MonthlyBreakdown.MonthEntryBounds | src/services/performanceAnalysis.ts:194-199 | every entry is the one built from its month's trades, has at least one trade of that month, and a win rate in [0, 100] |
| MonthlyBreakdown.MonthEntryIff | src/services/performanceAnalysis.ts:180-200 | a month has an entry exactly when some trade was created in it |
| PerformanceMetrics.WinRate | src/services/performanceAnalysis.ts:93-95 | the win rate lies in [0, 100], with 0 for no trades |
| PerformanceMetrics.WinRateExtremes | src/services/performanceAnalysis.ts:93-95 | 0 exactly when no trade wins; 100 exactly when there are trades and all win |
| PerformanceMetrics.PnLSplit | src/services/performanceAnalysis.ts:97-127 | total P/L is gross profit less gross loss |
| PerformanceMetrics.GrossZeroIff | src/services/performanceAnalysis.ts:121-127 | gross profit is 0 exactly when no P/L is positive; gross loss is 0 exactly when none is negative |
| PerformanceMetrics.ProfitFactor | src/services/performanceAnalysis.ts:120-130 | the profit factor is never negative |
| PerformanceMetrics.ProfitFactorRatio | src/services/performanceAnalysis.ts:129 | with some loss, profit factor times gross loss is gross profit |
| PerformanceMetrics.ProfitFactorCases | src/services/performanceAnalysis.ts:129 | with no negative P/L, the factor is 999 exactly when some P/L is positive; it is 0 exactly when no P/L is positive |
| PerformanceMetrics.QualifyingCountZeroIff | src/services/performanceAnalysis.ts:99-133 | no trade qualifies for an average exactly when none has a recorded positive value |
| PerformanceMetrics.PositiveMeanSign | src/services/performanceAnalysis.ts:99-137 | the averages of R:R and holding time are positive exactly when some trade qualifies, and 0 otherwise |
| PerformanceMetrics.PositiveMeanIgnores | src/services/performanceAnalysis.ts:99-133 | a trade whose value is missing, zero or negative leaves the average unchanged |
| PerformanceMetrics.PositiveMeanAtMost | src/services/performanceAnalysis.ts:100-136 | an average never exceeds a bound that all qualifying values respect |
| PerformanceMetrics.ChecklistGroupsPartition | src/services/performanceAnalysis.ts:204-205 | the two checklist groups split the trades: as multisets, and in count |
| PerformanceMetrics.ChecklistCorrelationProperties | src/services/performanceAnalysis.ts:203-221 | the group counts add up to all trades, each win rate is in [0, 100], and a win rate is 0 for an empty group |
| PerformanceMetrics.CalculateMetrics | src/services/performanceAnalysis.ts:92-118 | the method's metrics equal `MetricsOf`, built from the two breakdown methods |
| PerformanceMetrics.MetricsOfNoTrades | src/services/performanceAnalysis.ts:324-339 | the metrics of no trades are the all-zero empty metrics |
| PerformanceMetrics.MetricsBounds | src/services/performanceAnalysis.ts:92-118 | the metrics count every trade, the win rate is in [0, 100], the profit factor and both averages are non-negative, total P/L is gross profit less gross loss, and the checklist groups cover all trades |
| PerformanceScore.MonthlyVariance | src/services/performanceAnalysis.ts:314-322 | the variance is never negative, and is 0 with fewer than two months |
| PerformanceScore.UniformMonthsHaveNoSpread | src/services/performanceAnalysis.ts:316-321 | months that all have the same win rate have variance 0 |
| PerformanceScore.CalculatePerformanceScore | src/services/performanceAnalysis.ts:284-312 | the running-sum method equals the sum of the five capped components, capped at 100 |
| PerformanceScore.ScoreBounds | src/services/performanceAnalysis.ts:287-311 | the components never exceed 100 together, so the final cap is inert; with a non-negative win rate the score is in [0, 100] |
| PerformanceScore.MetricsScoreBounds | src/services/performanceAnalysis.ts:284-312 | every metrics the service computes scores in [0, 100] |
| PerformanceScore.ScoreMonotone | src/services/performanceAnalysis.ts:288-309 | a higher win rate or more trades never lowers the score |
| PerformanceScore.LabelMonotone | src/services/performanceAnalysis.ts:277-281 | a higher score never gets a lower label |
| PerformanceScore.LabelThresholdsExact | src/services/performanceAnalysis.ts:277-281 | each label's threshold itself receives that label; below it the label is lower; at or above it, it is that label or higher |
| PerformanceScore.CalculatePerformanceLabel | src/services/performanceAnalysis.ts:274-282 | the label is the threshold cascade applied to the score |
| PerformanceInsights.WinRateInsight | src/services/performanceAnalysis.ts:227-233 | positive exactly from 60%, neutral exactly in [50, 60), negative exactly below 50 |
| PerformanceInsights.BestIndex | src/services/performanceAnalysis.ts:237-239 | the `reduce` picks an entry with the highest win rate, the first such on ties |
| PerformanceInsights.StrategyInsights | src/services/performanceAnalysis.ts:236-244 | one best-strategy insight when there are strategies, none otherwise |
| PerformanceInsights.ChecklistInsights | src/services/performanceAnalysis.ts:247-260 | at most one insight, and only about checklists |
| PerformanceInsights.ProfitFactorInsights | src/services/performanceAnalysis.ts:263-269 | at most one insight, and only about the profit factor |
| PerformanceInsights.GenerateInsights | src/services/performanceAnalysis.ts:223-272 | the pushed array equals `Insights`, the four rule groups in order |
| PerformanceInsights.InsightsAt | src/services/performanceAnalysis.ts:223-272 | position `i` comes from the win-rate rule, then the strategy, checklist and profit-factor rules, in that order |
| PerformanceInsights.InsightsShape | src/services/performanceAnalysis.ts:223-272 | one to four insights; the first, and only it, is about the win rate |
| PerformanceInsights.BestStrategyInsight | src/services/performanceAnalysis.ts:236-244 | a best-strategy insight exists exactly when there are strategies, and names a strategy of maximal win rate |
| PerformanceInsights.ChecklistInsight | src/services/performanceAnalysis.ts:247-260 | a checklist insight exists exactly when both groups have trades and their win rates differ by more than 5 points; it is positive exactly when the checklist group is ahead |
| PerformanceInsights.ProfitFactorInsight | src/services/performanceAnalysis.ts:263-269 | no profit-factor insight exactly in [1, 1.5); otherwise the last insight is about it: positive from 2, neutral in [1.5, 2), negative below 1 |
| PerformanceAnalysis.GeneratePerformanceReport | src/services/performanceAnalysis.ts:45-69 | no trades: the fixed empty report and no cache write; otherwise the computed report, and one cache write with the user, that report's metrics and label, and the trade count |
| PerformanceAnalysis.EmptyReportFacts | src/services/performanceAnalysis.ts:53-58 | the empty report has one neutral insight and the label Improving, although scoring its metrics would give 15 points and Declining |
| PerformanceAnalysis.NonEmptyReportFacts | src/services/performanceAnalysis.ts:61-68 | a report for some trades counts them all, has a bounded win rate and score, one to four insights led by the win-rate insight, and the label of its score |
| TradeStats.CountResult | src/components/Dashboard/TradeStats.tsx:23-25 | no count exceeds the trades |
| TradeStats.ResultCountsPartition | src/components/Dashboard/TradeStats.tsx:21-25 | wins, losses and break-evens never exceed the trades, and add up to them when every result is one of the three |
| TradeStats.WinRate | src/components/Dashboard/TradeStats.tsx:27 | the rounded win rate is an integer in [0, 100] |
| TradeStats.WinRateRounds | src/components/Dashboard/TradeStats.tsx:27 | 0 without trades; otherwise within half a point of the exact percentage |
| TradeStats.Pips | src/components/Dashboard/TradeStats.tsx:30-35 | pips are never negative, and 0 exactly when the prices are equal |
| TradeStats.TotalPipsSplit | src/components/Dashboard/TradeStats.tsx:37-42 | the total is the pips of wins less the pips of losses |
| TradeStats.TotalPipsIgnores | src/components/Dashboard/TradeStats.tsx:41 | a trade that is neither WIN nor LOSS leaves the total unchanged |
| TradeStats.AvgPipsSign | src/components/Dashboard/TradeStats.tsx:44 | 0 without trades; otherwise positive or negative exactly as the total is |
| TradeStats.VerdictIff | src/components/Dashboard/TradeStats.tsx:79 | Profitable exactly above 50, Neutral exactly in (40, 50], Needs Work exactly at or below 40, and monotone in the win rate |
| TradeStats.ChartDataShape | src/components/Dashboard/TradeStats.tsx:48-52 | three bars, wins, losses and break-even in that order, holding the counts, which add up to the trades when all results are valid |
| TradeForm.ResultDefinedIff | src/components/Trades/TradeForm.tsx:33-37 | there is a result exactly when both prices parse |
| TradeForm.BuyRule | src/components/Trades/TradeForm.tsx:39-40 | BUY: WIN exactly when the exit is above the entry, LOSS exactly when it is below |
| TradeForm.SellRule | src/components/Trades/TradeForm.tsx:41-42 | SELL: WIN exactly when the exit is below the entry, LOSS exactly when it is above |
| TradeForm.BreakEvenRule | src/components/Trades/TradeForm.tsx:39-43 | BREAK EVEN exactly when the prices are equal, in either direction |
| TradeForm.FlipSwapsOutcome | src/components/Trades/TradeForm.tsx:39-43 | the opposite direction swaps WIN and LOSS |
| TradeForm.TradeForm.constructor | src/components/Trades/TradeForm.tsx:24-30 | the form starts blank (empty strings, BUY, no file), not loading, with nothing submitted |
| TradeForm.TradeForm.Fill | src/components/Trades/TradeForm.tsx:24-50 | editing sets exactly the field values and nothing else |
| TradeForm.TradeForm.HandleSubmit | src/components/Trades/TradeForm.tsx:52-101 | unparseable prices: an error toast and nothing else changes; otherwise one record with the parsed prices and the computed result reaches `onSubmit`; the fields reset only if it does not throw; loading ends false; every submitted record is consistent with its prices |
| TradeForm.TradeForm.SubmitTwice | src/components/Trades/TradeForm.tsx:52-86 | two submits in a row, the first succeeding, send at most one record: a valid form is sent once, blanked, and the second press only shows the invalid-price toast; an invalid form gets two such toasts and is left as it was |
| TradingHeatmap.CellTrades | src/components/Dashboard/TradingHeatmap.tsx:19-24 | a cell's trades are among the trades, all of its weekday and hour |
| TradingHeatmap.HeatmapShape | src/components/Dashboard/TradingHeatmap.tsx:13-17 | five rows Monday to Friday, each of 24 cells for the hours 0 to 23 in order |
| TradingHeatmap.CellTradesExact | src/components/Dashboard/TradingHeatmap.tsx:19-24 | a trade is in a cell exactly when it is a trade of that weekday and hour |
| TradingHeatmap.CellContents | src/components/Dashboard/TradingHeatmap.tsx:26-35 | a cell's count and P/L are those of exactly the trades of its weekday and hour |
| TradingHeatmap.IntensityBounds | src/components/Dashboard/TradingHeatmap.tsx:34 | intensity lies in [0, 1], is 0 exactly for an empty cell and 1 exactly from five trades |
| TradingHeatmap.GridCountsPartition | src/components/Dashboard/TradingHeatmap.tsx:17-37 | the cell counts add up to the number of weekday trades, which is at most all trades: no trade is counted twice |
| TradingHeatmap.WeekendInNoCell | src/components/Dashboard/TradingHeatmap.tsx:13-23 | a Saturday or Sunday trade is in no cell |
| TradingHeatmap.ColorRulesAgree | src/components/Dashboard/TradingHeatmap.tsx:39-87 | `getHeatmapColor` and the inline class pick the same hue; gray exactly for intensity 0; the opacity class lies in 30..100 |
| TradingHeatmap.CellOpacity | src/components/Dashboard/TradingHeatmap.tsx:88-90 | an empty cell is drawn at opacity 0.1, any other cell at more than 0.3 and at most 1, and a cell of five or more trades at 1 |
| AffiliatePopup.NotReadyNeverOpens | src/components/Affiliate/AffiliatePopup.tsx:20 | without affiliate info or a user it never opens |
| AffiliatePopup.DisabledNeverOpens | src/components/Affiliate/AffiliatePopup.tsx:24-27 | with the disabled flag 'true' it never opens, at any time |
| AffiliatePopup.SupportedNeverOpens | src/components/Affiliate/AffiliatePopup.tsx:36 | a user who has supported never sees it |
| AffiliatePopup.RecentNeverOpens | src/components/Affiliate/AffiliatePopup.tsx:39-45 | shown less than three days ago: it stays closed |
| AffiliatePopup.StaleOpens | src/components/Affiliate/AffiliatePopup.tsx:19-49 | with info and user, not disabled, not supported, and never shown or shown three days ago or earlier: it opens |
| AffiliatePopup.AffiliatePopup.constructor | src/components/Affiliate/AffiliatePopup.tsx:15-25 | the popup starts closed with the given persisted state |
| AffiliatePopup.AffiliatePopup.CheckShouldShowPopup | src/components/Affiliate/AffiliatePopup.tsx:19-53 | opens and records now as last shown exactly when nothing suppresses it, otherwise changes nothing; afterwards a check at the same time does not open it |
| AffiliatePopup.AffiliatePopup.HandleSupportClick | src/components/Affiliate/AffiliatePopup.tsx:55-85 | no-op without info or user; a throwing update adds only the error toast; otherwise the flag is set, the link opened once, thanks shown, the popup closed, `has_supported` set if the update applied, and no later check opens it |
| AffiliatePopup.AffiliatePopup.HandleDontShowAgain | src/components/Affiliate/AffiliatePopup.tsx:87-90 | sets the flag and closes; no later check opens it; nothing else changes |
| AffiliatePopup.AffiliatePopup.HandleClose | src/components/Affiliate/AffiliatePopup.tsx:92-94 | closes and leaves every persisted value as it was |
| PerformanceReport.LabelColorsDistinct | src/components/Performance/PerformanceReport.tsx:43-52 | the five labels get five different colours, none of them the fallback gray |
| PerformanceReport.UnknownLabelIsGray | src/components/Performance/PerformanceReport.tsx:50 | any other string gets gray |
| PerformanceReport.FormatDurationSplit | src/components/Performance/PerformanceReport.tsx:63-66 | from 60 minutes: whole hours, the remainder in [0, 60), shown minutes in 0..60, and 60 exactly when the remainder is at least 59.5 |
| PerformanceReport.FormatDurationShowsSixtyMinutes | src/components/Performance/PerformanceReport.tsx:64-66 | 119.5 minutes is shown as 1h 60m |
| PerformanceReport.FormatDurationShowsSixtyUnderAnHour | src/components/Performance/PerformanceReport.tsx:63 | 59.5 minutes is shown as 60m |
| PerformanceReport.FormatDurationRounded | src/components/Performance/PerformanceReport.tsx:62-67 | rounded first: minutes always below 60, and hours times 60 plus minutes is the rounded input |
| PerformanceReport.FormatDurationsAgree | src/components/Performance/PerformanceReport.tsx:62-67 | both formats agree below 59.5 minutes and on every whole number of minutes from 60 |
| PerformanceReport.HoldTimeShownIff | src/components/Performance/PerformanceReport.tsx:164 | with `formatDuration` as written: hold time reads N/A exactly when no trade has a positive holding duration; otherwise the shown minutes lie in 0..60, and are 60 exactly when the part being rounded is at least 59.5 |
| PerformanceReport.HoldTimeShowsSixtyMinutes | src/components/Performance/PerformanceReport.tsx:164 | two trades of 119 and 120 minutes make the card show 1h 60m |
| PerformanceReport.HoldTimeRoundedShownIff | src/components/Performance/PerformanceReport.tsx:164 | with the corrected formatter: the same N/A rule, and the minutes are always below 60 |
| PerformanceReport.RiskRewardShownIff | src/components/Performance/PerformanceReport.tsx:245-248 | the R:R figure reads N/A exactly when no trade has a positive ratio |
| PerformanceReport.ServiceProfitFactorShown | src/components/Performance/PerformanceReport.tsx:152 | the card for the service's factor shows profit over loss when there is a loss, 999 with profit and no loss, and 0 with no profit; the `∞` branch is unreachable because the service's factor is a finite number |

## Left out

- Database I/O is not modelled. The trades and strategies that `fetchUserTrades` and `fetchUserStrategies` load are parameters, and fetch errors are not modelled.
- The trades arrive newest first (`order('created_at', descending)`). The model takes them in whatever order it is given.
- `cacheReport` is returned as a value, not performed. Its errors are swallowed in the source, so they cannot affect the report.
- Calendar handling is reduced to the inputs it produces: date parsing, time zones, `toISOString`, `getHours` and the weekday name. Each timestamp carries its `YYYY-MM` key, local weekday and local hour.
- The popup's "three days ago" is `now` less 259 200 000 ms. The source's `setDate(getDate() - 3)` can differ from that by a daylight-saving hour.
- A `lastShown` string that does not parse as a date is left out. In the source it gives an invalid date, which never compares as recent.
- Text output is not modelled: `toFixed`, `Intl.NumberFormat`, the template strings and the insight message wording. Insights are modelled by kind and by the figures they carry.
- `parseFloat` is a parameter of `HandleSubmit`. The model only requires that it does not parse the empty string.
- `Math.sqrt` in `calculateMonthlyVariance`: the function returns the variance, and the score compares it against 100, 400 and 900. That is equivalent to comparing its square root against 10, 20 and 30.
- The month sort's `localeCompare` is modelled as code-point order (`Precedes`). The two orders agree on the fixed-width `YYYY-MM` digit keys the service sorts. They are not claimed to agree on arbitrary strings.
- Numbers are unbounded reals and integers. Floating-point rounding is not modelled, and neither is a `NaN` or `Infinity` reaching the metrics.
- React rendering, hooks, effects, the `isLoading` disabling of buttons and the toast contents are not modelled. A toast is recorded by its kind.
- `window.open` is recorded as the list of opened links.
- The report page's calls into the service are not modelled. It calls `analyzeUserPerformance` and reads `riskRewardAnalysis.averageRR`, neither of which the service defines. The display guards are modelled on the service's `avgRiskReward` and `avgHoldingTime`.
- The payment functions, authentication, notifications, checklists, accounts and the other pages are outside this model.

## Findings

| source | as written | input that shows it | evidently intended | confidence | as-written member | corrected member |
|---|---|---|---|---|---|---|
| src/components/Performance/PerformanceReport.tsx:64-66 | whole hours are split off first, then `Math.round(minutes % 60)` rounds the rest | trades of 119 and 120 minutes average 119.5, and the hold-time card shows "1h 60m" | minutes below 60, here "2h 0m" | not executed | PerformanceReport.HoldTimeShowsSixtyMinutes | PerformanceReport.HoldTimeRoundedShownIff |
| src/components/Performance/PerformanceReport.tsx:63 | below 60 minutes, `Math.round(minutes)` is shown as the minutes | 59.5 minutes is shown as "60m" | "1h 0m" | not executed | PerformanceReport.FormatDurationShowsSixtyUnderAnHour | PerformanceReport.FormatDurationRounded |
