# Multi-factor stock selection: a verified model of the core

This project models the rule-based core of a multi-factor A-share stock
selection pipeline and proves properties of it. The pipeline:

- scores stocks on standardised factors and picks the top N per date at
  equal weight;
- gates the portfolio with market-timing signals (two variants: a
  three-vote majority, and a weighted score);
- runs a daily backtest that rebalances on schedule dates, liquidates on a
  bearish signal, marks holdings to market with stale prices for suspended
  stocks and records the net value;
- evaluates the value series (drawdown, win rate, profit/loss ratio,
  recovery time, turnover and the undefined-result guards);
- screens and retires factors by IC and ICIR;
- derives sentiment factors (limit-up/down flags, consecutive limit-up
  streaks per stock, market heat, turnover rate).

Modules, one per source file, plus two shared ones:

| file | module | models |
|---|---|---|
| common.dfy | Common | NaN-able cells (`Num`), `Option`, `Result` with the Python exceptions, sums, sorted distinct dates |
| map_sum.dfy | MapSum | the sum of the values of a dict, with scaling and normalising lemmas |
| signal_rules.dfy | SignalRules | comparisons, up ratio, breadth classes and thresholds shared by both timing files |
| backtest.dfy | Backtest | `run_backtest` as the `Engine` class and `RunBacktest` loop; `adjust_positions` as a method |
| performance.dfy | Performance | the metric formulas and their guards |
| stock_selection.dfy | StockSelection | z-scores, composite score, top-N selection, per-date grouping |
| strategy_timing.dfy | StrategyTiming | the three-vote timing signal and its left merges |
| factor_timing.dfy | FactorTiming | the weighted timing score |
| factor_analysis.dfy | FactorAnalysis | factor columns, daily IC table, ICIR screen, retirement streaks |
| sentiment.dfy | Sentiment | the sentiment factors |

Modelling conventions:

- A pandas float cell is `Num = Undef | Val(real)`. `Undef` stands for NaN
  and for `None`. Comparisons with NaN are false (`Gt`, `Lt`, `Ge`, `Le`).
- Arithmetic is exact real arithmetic.
- Exceptions the code would raise are `Err(IndexError)`, `Err(KeyError)`,
  `Err(ZeroDivision)` and `Err(AttributeError)`.
- Dates are integers. Tushare `YYYYMMDD` dates order like integers.
  Stock codes are strings.
- Tables are sequences of row records. Python dicts the code mutates are
  `map`s.
- Rolling means, momentum sums, standard deviations, Spearman correlation
  and the monthly IC/ICIR tables are inputs to the model rather than
  computed. Spearman correlation is a function parameter `corr`.

The two imperative pieces keep their form:

- **Backtest.** `Engine` holds the ledger (`current_positions`), the
  price cache (`last_prices`), `capital` and the two output lists. Its
  `Step`, `MarkToMarket` and `Record` methods are proved against ghost
  functions (`Advance`, `Run`). `AdjustPositions` fills and rescales its
  maps in loops. It is proved equal to the ghost `Allocation`.
- **Loops in the other files.** The streak loop of the factor retirement,
  the IC table fill and the per-stock consecutive limit-up counter are
  methods with loop invariants. Each is proved equal to a function, and
  that function's properties are proved as lemmas.

## Model

| member | source | states |
|---|---|---|
| Backtest.Calendar | strategy/backtest.py:19 | the trade dates are strictly increasing and are exactly the dates of the market rows |
| Backtest.DailyMarket | strategy/backtest.py:29 | the day's market rows all carry the date; positive closes stay positive |
| Backtest.DailySchedule | strategy/backtest.py:38-39 | the schedule rows of the date; there are some iff the date is a rebalancing date |
| Backtest.DailyMarketKeepsDay | strategy/backtest.py:29 | a row is among the day's market rows iff it is a market table row of that date |
| Backtest.DailyScheduleKeepsDay | strategy/backtest.py:38-39 | a row is among the day's schedule rows iff it is a holdings table row of that date |
| Backtest.CloseIsFirstMatch | strategy/backtest.py:49-51 | a stock has a close iff some row of the day names it, and the close is the first such row's |
| Backtest.DailyCloseIsFirstMatch | strategy/backtest.py:29-51 | read from the day's slice, a stock's close is that of the first market table row of the date and stock, and there is none iff the table has no such row |
| Backtest.ResolveSignalIsFirstRow | strategy/backtest.py:30-35 | a date without a signal row is long (1); otherwise the signal is the first row's |
| Backtest.EffectiveWeights | strategy/backtest.py:90-99 | only scheduled stocks with a price that day get a weight; positive weights stay positive |
| Backtest.EffectiveWeightsAreLastRows | strategy/backtest.py:90-99 | a stock is weighted iff it is scheduled and priced, and its weight is its last schedule row's |
| Backtest.DailyWeightsKeys | strategy/backtest.py:38-99 | read from the date's slice of the holdings table, a stock is weighted iff it is priced and some holdings row of that date names it |
| Backtest.DailyWeightIsLastRow | strategy/backtest.py:38-99 | a priced holdings row of the date that no later row of the date and stock follows gives its stock's weight |
| Backtest.MassPositive | strategy/backtest.py:102 | the priced weight mass is non-negative, and positive when a stock is priced |
| Backtest.SumValues | strategy/backtest.py:102 | the loop computes the sum of the dict's values |
| Backtest.PriceSchedule | strategy/backtest.py:90-99 | the first loop: shares = capital × weight / close for every weighted stock, and no other key |
| Backtest.Rescale | strategy/backtest.py:104-106 | every weight is divided by the mass, keys unchanged |
| Backtest.Reprice | strategy/backtest.py:108-113 | every rescaled stock is re-bought at capital × new weight / close |
| Backtest.AdjustPositions | strategy/backtest.py:79-115 | the result is the allocation: rescaled when the mass is below 1, unscaled otherwise |
| Backtest.AllocationShort | strategy/backtest.py:104-113 | with 0 < mass < 1 the rescaled shares are the allocation |
| Backtest.AllocationFull | strategy/backtest.py:102-104 | with mass ≥ 1 the first loop's shares are the allocation |
| Backtest.AllocationFacts | strategy/backtest.py:90-113 | allocated stocks are priced that day and hold non-negative shares |
| Backtest.TargetsSum | strategy/backtest.py:102-113 | the weights actually applied sum to the deployment: 1 when the mass is below 1, the mass otherwise |
| Backtest.AllocationWorth | strategy/backtest.py:102-113 | marked at the day's closes, the allocation is worth capital × deployment |
| Backtest.RefreshedAt | strategy/backtest.py:49-52 | a held stock priced today takes today's close in the cache |
| Backtest.Today | strategy/backtest.py:29-39 | what a date looks up: rebalancing iff it has schedule rows, and rows of that date only |
| Backtest.Run | strategy/backtest.py:28-71 | the date loop records one value row and one snapshot per date |
| Backtest.Engine.constructor | strategy/backtest.py:21-26 | the engine starts with an empty ledger and cache, capital = initial capital, no rows |
| Backtest.Engine.Step | strategy/backtest.py:28-71 | one date of the loop: rebalance or flatten, mark, overwrite capital, record |
| Backtest.Engine.MarkToMarket | strategy/backtest.py:47-57 | refreshes the cache from today's closes and returns the value of every held stock with a cached price; ledger and capital unchanged |
| Backtest.Engine.Record | strategy/backtest.py:63-71 | the snapshot holds every held stock with a cached price, valued shares × price |
| Backtest.RunBacktest | strategy/backtest.py:19-76 | the outputs are the date loop's; one value row per distinct market date, dates strictly increasing |
| Backtest.SharesNonNegative | strategy/backtest.py:97 | non-negative capital and weight at a positive close buy non-negative shares |
| Backtest.StepKeepsGoodState | strategy/backtest.py:28-71 | one date keeps shares, cache prices and capital non-negative, and every held stock cached |
| Backtest.RunKeepsGoodState | strategy/backtest.py:28-71 | the same holds after any number of dates |
| Backtest.EveryHoldingValued | strategy/backtest.py:47-71 | after marking, every held stock has a price and appears in the last snapshot |
| Backtest.RunRecordsDates | strategy/backtest.py:28-60 | the i-th rows carry the i-th date, and the last value is capital ÷ initial capital |
| Backtest.RebalanceDeploysCapital | strategy/backtest.py:38-59 | a long rebalance turns capital into capital × deployment |
| Backtest.FlattenWipesCapital | strategy/backtest.py:41-59 | a rebalancing date whose signal is not 1 (0 or NaN) empties the ledger, and capital and value become 0 |
| Backtest.IdleKeepsLedger | strategy/backtest.py:38-59 | a date without schedule rows keeps the ledger; with an empty ledger, capital and value become 0 |
| Backtest.StepKeepsWiped | strategy/backtest.py:41-59 | once capital is 0 and all shares are 0, one more date keeps it so |
| Backtest.StepAfterWiped | strategy/backtest.py:59-60 | after a wiped date, the next date records value 0 |
| Backtest.WipedForever | strategy/backtest.py:59-60 | once wiped, every later recorded value is 0 (as written) |
| Backtest.FlattenIsPermanent | strategy/backtest.py:41-60 | a flatten makes every later recorded value 0 (as written) |
| Backtest.CashAdvance | strategy/backtest.py:38-59 | corrected (cash kept): the value is the cash plus the holdings at the latest prices; a date without rebalancing keeps the ledger and the cash; a flat rebalance empties the ledger into cash |
| Backtest.CashFlattenKeepsCapital | strategy/backtest.py:43-59 | corrected: a flatten keeps the capital as cash |
| Backtest.CashRebalanceKeepsRemainder | strategy/backtest.py:41-59 | corrected: an under-deployed rebalance keeps the rest as cash and capital is unchanged |
| Backtest.CashIdleFlatIsCash | strategy/backtest.py:47-59 | corrected: with no holdings, capital is the cash |
| Performance.Return | utils/performance.py:24 | a daily return of non-negative values is never NaN and is at least −1 |
| Performance.DailyReturns | utils/performance.py:24 | one return per value; the first is 0 |
| Performance.ReturnsRebuildValues | utils/performance.py:24 | compounding the returns from the first value rebuilds the value series |
| Performance.PeakIsMaximum | utils/performance.py:31 | the running max through t is the largest value up to t and is attained |
| Performance.PeakMonotone | utils/performance.py:31 | the running max never decreases |
| Performance.DrawdownBounds | utils/performance.py:32 | each drawdown is in [−1, 0]; it is 0 iff the value is at a positive peak, NaN iff all values so far are 0 |
| Performance.MinDefined | utils/performance.py:33 | the NaN-skipping minimum is NaN iff all are NaN, else below every defined entry |
| Performance.MinDefinedAttained | utils/performance.py:33 | a defined minimum is one of the entries |
| Performance.MaxDrawdownBounds | utils/performance.py:31-33 | max drawdown is in [−1, 0], and NaN iff every value is 0 |
| Performance.Calmar | utils/performance.py:41 | Calmar is NaN iff max drawdown is 0 or NaN (or the annual return is); otherwise annual return ÷ abs(max drawdown) |
| Performance.Wins | utils/performance.py:69 | the winning returns are strictly positive |
| Performance.Losses | utils/performance.py:70 | the losing returns are strictly negative |
| Performance.WinsEmpty | utils/performance.py:69 | no winning day iff no return is positive |
| Performance.LossesEmpty | utils/performance.py:70 | no losing day iff no return is negative |
| Performance.WinRate | utils/performance.py:66 | win rate is NaN iff there are no returns, else in [0, 1] |
| Performance.WinRateBelowOne | utils/performance.py:24-66 | the filled first return of 0 is never a win, so the win rate is below 1 |
| Performance.ProfitLoss | utils/performance.py:69-71 | P/L is NaN iff there is no winning or no losing day; otherwise it is positive |
| Performance.SortinoUndefined | utils/performance.py:44-46 | Sortino is NaN iff fewer than two losing days, zero downside volatility or a NaN mean |
| Performance.InformationRatioUndefined | utils/performance.py:49-56 | NaN without a benchmark; with one, NaN iff fewer than two rows, zero tracking error or a NaN mean |
| Performance.FirstAt | utils/performance.py:61 | the first index from a start whose drawdown equals the minimum, or none |
| Performance.FirstRecovery | utils/performance.py:62 | the first index from a start where the value reaches the previous running max, or none |
| Performance.Trough | utils/performance.py:60-61 | the trough exists only when max drawdown < 0, and its drawdown is the maximum drawdown |
| Performance.TroughExists | utils/performance.py:60-61 | a trough exists iff max drawdown is defined and negative |
| Performance.RecoveryAsWrittenFails | utils/performance.py:63 | as written, the values 2, 1, 2 raise AttributeError |
| Performance.RecoveryAsWritten | utils/performance.py:59-63 | as written: AttributeError iff there is a trough and some row is back at its previous peak; otherwise NaN |
| Performance.Recovery | utils/performance.py:59-63 | corrected: a defined recovery time needs a trough and is at least 1 period |
| Performance.RecoveryAgreesWhenDefined | utils/performance.py:59-63 | wherever the code does not raise, the corrected recovery time is NaN as well |
| Performance.RecoveryMeaning | utils/performance.py:59-63 | corrected: the time is the periods from the trough to its first later recovery; NaN iff no trough or no recovery |
| Performance.RecoveryCounts | utils/performance.py:59-63 | corrected: the values 2, 1, 2 recover in 1 period |
| Performance.Turnover | utils/performance.py:93-102 | division by zero iff there are no position dates |
| Performance.TurnoverInverse | utils/performance.py:99-101 | turnover × number of distinct dates = 125 |
| Performance.Table | utils/performance.py:80-88 | the table lists the ten metric names in order |
| Performance.TurnoverCell | utils/performance.py:74-77 | no positions gives NaN; empty positions raise division by zero |
| Performance.ReportOf | utils/performance.py:23-77 | corrected (recovery scan): a defined recovery time has a trough and is at least 1; Calmar is NaN iff max drawdown is 0 or NaN or the annual return is NaN; a defined P/L is positive |
| Performance.Metrics | utils/performance.py:23-77 | as written: a returned report comes from a non-empty series, carries that series' max drawdown and a NaN recovery time, and is exactly the report of the series, the given ratios, the benchmark and the turnover cell, which did not fail |
| Performance.MetricsErrors | utils/performance.py:23-77 | as written: an empty series raises IndexError; otherwise a trough followed by any recovering row raises AttributeError; otherwise an empty positions table raises division by zero; nothing else raises |
| Performance.MetricsFailsOnRecovery | utils/performance.py:59-63 | as written: the values 2, 1, 2 raise AttributeError whatever the other inputs |
| Performance.ReportBounds | utils/performance.py:31-66 | in the report, max drawdown is in [−1, 0] and win rate in [0, 1) |
| Performance.MetricsBounds | utils/performance.py:23-77 | as written: every returned report has max drawdown in [−1, 0], win rate in [0, 1), a NaN Calmar ratio iff the drawdown is 0 or NaN or the annual return is NaN, a positive P/L ratio where defined, and the turnover of the holdings table |
| StockSelection.ZScoreMonotone | strategy/stock_selection.py:10 | the z-score preserves the order of the raw factor values |
| StockSelection.ZColumn | strategy/stock_selection.py:10 | one z-score per row |
| StockSelection.ZColumnCentred | strategy/stock_selection.py:10 | the defined z-scores sum to 0 |
| StockSelection.PresentZColumn | strategy/stock_selection.py:10 | NaN values stay NaN; the defined ones are (x − mean) / (std + 1e-8) |
| StockSelection.ZColumnAt | strategy/stock_selection.py:10 | entry i of a factor's z-score column is the z-score of the factor's entry i |
| StockSelection.ZRowIsZColumn | strategy/stock_selection.py:10-11 | the z-score of factor f that row i's composite score reads is entry i of factor f's z-score column against the column's mean |
| StockSelection.ScoredColumnCentred | strategy/stock_selection.py:10-11 | the z-scores the composite score reads for one factor sum to 0 over the defined ones |
| StockSelection.QuotientsSum | strategy/stock_selection.py:10 | the sum of centred quotients is (sum − n × mean) / divisor |
| StockSelection.CompositeUndefined | strategy/stock_selection.py:11 | the composite is NaN iff some z-score is NaN |
| StockSelection.CompositeOfValues | strategy/stock_selection.py:11 | with defined z-scores, the composite is the weighted sum |
| StockSelection.CompositeDirection | strategy/stock_selection.py:11 | better on every factor in its weight's direction gives a composite at least as high |
| StockSelection.WeightedSumDirection | strategy/stock_selection.py:11 | the same for the weighted sum of reals |
| StockSelection.Scores | strategy/stock_selection.py:9-12 | one scored row per input row, with its date and code |
| StockSelection.InsertKeeps | strategy/stock_selection.py:18 | inserting into the ranking keeps every row |
| StockSelection.InsertSorts | strategy/stock_selection.py:18 | inserting keeps the ranking descending, NaN last |
| StockSelection.SortDesc | strategy/stock_selection.py:18 | the sort is descending with NaN last and a permutation of the group |
| StockSelection.HeadCount | strategy/stock_selection.py:18 | `head(n)` keeps at most the group's size |
| StockSelection.SelectedCount | strategy/stock_selection.py:18 | min(top_n, group size) rows are kept; a negative n drops the last abs(n) |
| StockSelection.SelectedOutrank | strategy/stock_selection.py:18 | kept and dropped rows partition the group, and every kept score ranks at or above every dropped one |
| StockSelection.SelectStocks | strategy/stock_selection.py:14-20 | an empty selection raises division by zero; otherwise each kept row gets its date, its code and weight 1/k |
| StockSelection.WeightsSumToOne | strategy/stock_selection.py:19 | the weights of a selection sum to 1 |
| StockSelection.RowsOn | strategy/stock_selection.py:30 | a date's group holds exactly the rows of that date |
| StockSelection.Dates | strategy/stock_selection.py:30 | the grouped dates are exactly the dates of the rows |
| StockSelection.SelectOnDated | strategy/stock_selection.py:30-33 | a date's positions all carry that date |
| StockSelection.SelectStocksDated | strategy/stock_selection.py:20 | selection keeps the group's date |
| StockSelection.PositionsOverPerDate | strategy/stock_selection.py:33-34 | the concatenated positions of a date are that date's selection; other dates add none |
| StockSelection.ConstructPositions | strategy/stock_selection.py:30-34 | division by zero iff the selection of some row's date fails; no rows give no positions |
| StockSelection.ConstructPositionsPerDate | strategy/stock_selection.py:30-34 | each date's positions depend only on that date's rows |
| StockSelection.PositionsOverFails | strategy/stock_selection.py:33 | the grouping raises division by zero iff some date's selection does |
| SignalRules.Cross | strategy/timing_signal.py:19 | the MA (and volume) signal is 1 iff both averages are defined and the short one is above, else 0 |
| SignalRules.CrossAntisymmetric | strategy/timing_signal.py:19 | swapping the averages never gives 1 twice; the signals sum to 1 iff both are defined and differ |
| SignalRules.UpCount | strategy/timing_signal.py:29 | the rising count is at most the number of rows |
| SignalRules.UpCountExtremes | strategy/timing_signal.py:29 | the count is all rows iff all rose, and 0 iff none rose |
| SignalRules.UpRatioBounds | strategy/timing_signal.py:29-31 | the up ratio is in [0, 1], 1 iff all rose and 0 iff none rose |
| SignalRules.PctsOn | strategy/timing_signal.py:33 | a date has no rows iff no market row carries it |
| SignalRules.Breadth | strategy/timing_signal.py:35-36 | 1 iff ratio > 0.6, 0 iff ratio < 0.4, NaN iff in between |
| SignalRules.BreadthMonotone | strategy/timing_signal.py:35-36 | a higher ratio never gives a lower breadth class |
| SignalRules.BreadthOn | factors/timing_signal.py:20-22 | a date's breadth signal is 0, 1 or NaN |
| SignalRules.Threshold | factors/timing_signal.py:64-67 | 1 iff score ≥ long; otherwise 0 iff score ≤ short; NaN otherwise and for a NaN score |
| SignalRules.ThresholdMonotone | factors/timing_signal.py:64-67 | a higher score never gives a lower class; NaN stays NaN |
| StrategyTiming.VoteMean | strategy/timing_signal.py:65 | the vote is the mean of three votes, or of MA and volume when breadth is NaN |
| StrategyTiming.FinalAsWritten | strategy/timing_signal.py:69-70 | as written: 1 iff the vote is at least 0.66, 0 iff at most 0.33, NaN iff NaN or strictly between |
| StrategyTiming.FinalAsWrittenClasses | strategy/timing_signal.py:65-70 | as written, for any 0/1 votes: 1 iff at least two are bullish, 0 iff none is bullish, NaN iff exactly one is bullish |
| StrategyTiming.OneBullishOfThreeUndecided | strategy/timing_signal.py:67-70 | as written, votes 1, 0, 0 (two bearish) give NaN, not 0 |
| StrategyTiming.Final | strategy/timing_signal.py:67-70 | corrected: 1 iff the vote is at least 0.66, 0 iff at most 1/3, NaN iff NaN or strictly between |
| StrategyTiming.FinalIsMajority | strategy/timing_signal.py:67-70 | corrected: 1 iff two votes are bullish, 0 iff two are bearish, NaN otherwise |
| StrategyTiming.FinalDiffers | strategy/timing_signal.py:67-70 | the code and the corrected signal differ exactly when breadth is present and one vote of three is bullish |
| StrategyTiming.SameDateHas | strategy/timing_signal.py:61 | an index row is among the rows of its own date |
| StrategyTiming.SameDateNone | strategy/timing_signal.py:61 | a date no row carries matches nothing |
| StrategyTiming.JoinedRows | strategy/timing_signal.py:61-62 | as written: the left merge gives one row per match, each with the left row's date |
| StrategyTiming.CombinedTiming | strategy/timing_signal.py:52-72 | as written: the output dates are exactly the index dates |
| StrategyTiming.CombinedDates | strategy/timing_signal.py:61-62 | the output dates are exactly the MA table's dates |
| StrategyTiming.SameDateUnique | strategy/timing_signal.py:61-62 | with distinct dates each row matches only itself |
| StrategyTiming.CombinedOneToOne | strategy/timing_signal.py:61-62 | as written: with distinct dates the merges give one row per index row, in order, with the code's thresholds |
| StrategyTiming.OwnRowClasses | strategy/timing_signal.py:65-70 | as written: a row alone on its date is 1 iff at least two votes are bullish, 0 iff none is, NaN iff exactly one is |
| StrategyTiming.CombinedTimingPerRow | strategy/timing_signal.py:52-72 | as written: with distinct dates the output is each index row's own signal under the code's thresholds, and its dates are the index dates |
| FactorTiming.MomentumSignal | factors/timing_signal.py:30 | 1 iff momentum > 0, else 0 (also for NaN) |
| FactorTiming.ComponentsOf | factors/timing_signal.py:7-31 | the MA and momentum components are always defined; only breadth can be NaN |
| FactorTiming.WeightedScore | factors/timing_signal.py:57-61 | the score is NaN iff some component is NaN |
| FactorTiming.ScoreBounds | factors/timing_signal.py:57-61 | with components in [0, 1] and non-negative weights summing to 1, the score is in [0, 1] |
| FactorTiming.DefaultScoreBounds | factors/timing_signal.py:39-45 | with the default weights 0.4/0.3/0.3 a defined score is in [0, 1] |
| FactorTiming.WeightedSignalClasses | factors/timing_signal.py:64-67 | NaN components give NaN; 1 iff score ≥ long; 0 iff below long and ≤ short |
| FactorTiming.WeightedTiming | factors/timing_signal.py:33-69 | one row per index row, with its date, its weighted score and the threshold of that score |
| FactorTiming.DefaultTimingUndefined | factors/timing_signal.py:64-67 | with defaults, the signal is NaN iff breadth is NaN or 0.4 < score < 0.6 |
| FactorAnalysis.HasPrefix | factors/factor_analysis.py:14 | true iff the name starts with one of the prefixes |
| FactorAnalysis.Where | factors/factor_analysis.py:51 | the marked positions, each once, in increasing order |
| FactorAnalysis.Pick | factors/factor_analysis.py:51 | the names at the given positions, in that order |
| FactorAnalysis.PickWhere | factors/factor_analysis.py:51 | a name is picked iff some marked position holds it |
| FactorAnalysis.FactorMask | factors/factor_analysis.py:13-14 | each column is marked iff it starts with a factor prefix |
| FactorAnalysis.FactorColsMembers | factors/factor_analysis.py:13-14 | a name is a factor column iff it is a column with a factor prefix |
| FactorAnalysis.FactorColumnsKept | factors/factor_analysis.py:13-14 | `momentum_20`, `pe_ttm`, `turnover_rate`, `sentiment_score` are factor columns |
| FactorAnalysis.KeyColumnsDropped | factors/factor_analysis.py:13-14 | the key, return, flag and heat columns are not |
| FactorAnalysis.NoPrefixAt | factors/factor_analysis.py:14 | a name differing from every prefix inside it is not a factor column |
| FactorAnalysis.FirstSeen | factors/factor_analysis.py:16 | `unique()`: every date once, exactly the dates present |
| FactorAnalysis.IcTableCells | factors/factor_analysis.py:16-23 | one row per date, one cell per factor; NaN when the factor is all missing that date, else the correlation with the future return |
| FactorAnalysis.CalculateIc | factors/factor_analysis.py:7-25 | the loops return the factor columns and the IC table |
| FactorAnalysis.Lookup | factors/factor_analysis.py:48-49 | `.loc` on a month finds a row with that label, or none iff no row has it |
| FactorAnalysis.ScreenMask | factors/factor_analysis.py:51 | marked iff IC > 0.02 and ICIR > 0.3 |
| FactorAnalysis.FilterFactorsByIcir | factors/factor_analysis.py:41-53 | IndexError iff the ICIR table is empty, KeyError iff the IC table lacks its last month |
| FactorAnalysis.FilterSelects | factors/factor_analysis.py:47-51 | a factor is selected iff its latest IC > 0.02 and ICIR > 0.3, both defined |
| FactorAnalysis.LastMonths | factors/factor_analysis.py:72 | `index[-3:]` keeps min(3, n) months |
| FactorAnalysis.StreakFull | factors/factor_analysis.py:70-76 | the streak is at most the months scanned, and all of them iff every ICIR is defined and < 0.3 |
| FactorAnalysis.FlaggedIff | factors/factor_analysis.py:72-79 | flagged iff at least three months exist and the last three ICIRs are defined and < 0.3 |
| FactorAnalysis.FlagMask | factors/factor_analysis.py:70-79 | each factor is marked iff flagged |
| FactorAnalysis.PresentMask | factors/factor_analysis.py:85 | marked iff the factor's file exists |
| FactorAnalysis.FlaggedMembers | factors/factor_analysis.py:70-79 | a name is flagged iff one of its columns is flagged |
| FactorAnalysis.RetiredMembers | factors/factor_analysis.py:81-88 | retired iff flagged and its file exists |
| FactorAnalysis.LowStreak | factors/factor_analysis.py:71-76 | the loop computes the streak over the last three months |
| FactorAnalysis.TrackAndRemove | factors/factor_analysis.py:56-90 | the loops return the flagged factors and, in flagged order, those that are retired |
| Sentiment.LimitUpFlag | factors/sentiment_factors.py:22 | 1 iff pct_chg ≥ 9.9, else 0 |
| Sentiment.LimitDownFlag | factors/sentiment_factors.py:23 | 1 iff pct_chg ≤ −9.9, else 0 |
| Sentiment.LimitFlagsExclusive | factors/sentiment_factors.py:22-23 | a row is never both limit-up and limit-down |
| Sentiment.Turnover | factors/sentiment_factors.py:16-19 | missing without the columns; a defined rate times the float share is the volume |
| Sentiment.RunIsTrailingRun | factors/sentiment_factors.py:30-35 | the counter is the length of the trailing limit-up run: 0 iff the last day is not limit-up |
| Sentiment.CountFacts | factors/sentiment_factors.py:30-35 | a count is 0 iff the row is not limit-up, and at most the row's position in its stock's history |
| Sentiment.InsertByDate | factors/sentiment_factors.py:28 | inserting keeps a stock's history ordered by date |
| Sentiment.History | factors/sentiment_factors.py:27-28 | a stock's history is exactly its rows, ordered by date |
| Sentiment.Ups | factors/sentiment_factors.py:31 | the limit-up flags along a history |
| Sentiment.ConsecutiveLimitUp | factors/sentiment_factors.py:25-35 | every row's count is the trailing run of its own stock's history up to it; streaks never cross stocks |
| Sentiment.CountRun | factors/sentiment_factors.py:28-35 | the inner loop writes the running count at each history position and nothing else |
| Sentiment.RunStep | factors/sentiment_factors.py:31-34 | the count is the previous + 1 on a limit-up day and 0 otherwise |
| Sentiment.UpSumZero | factors/sentiment_factors.py:40 | a date's limit-up count is 0 iff no row that day is limit-up |
| Sentiment.HeatOn | factors/sentiment_factors.py:39-43 | heat is defined iff the date has market rows; then it is ≥ 0 and heat × (downs + 1) = ups |
| Sentiment.HeatZero | factors/sentiment_factors.py:43 | heat is 0 iff no stock is limit-up that day |
| Sentiment.MergeHeatAsWritten | factors/sentiment_factors.py:38-49 | as written: KeyError iff the flag columns are missing; otherwise each stock row gets the heat of its date |
| Sentiment.MergeHeat | factors/sentiment_factors.py:49 | corrected: one heat per stock row, the date's heat, or missing without flag columns |
| Sentiment.MergeHeatDiffers | factors/sentiment_factors.py:44-49 | as written, the merge agrees with the corrected one when the flags exist and raises KeyError otherwise |
| Sentiment.SentimentFactors | factors/sentiment_factors.py:6-55 | as written: KeyError iff the market data lacks the flag columns; otherwise one output row per input row with its code, date, turnover, the heat of its date and its streak count, and the two placeholder columns missing |

## Left out

- The annualised return, Sharpe ratio, Sortino value, information-ratio
  value and tracking error are left out. They need a fractional exponent,
  `std` and `sqrt`. They are inputs, and only their undefined-result
  guards are modelled.
- Rolling moving averages, volume averages and momentum sums are left out
  of both timing files. They are taken as inputs on each index row.
- The per-date z-score standard deviation is an input function `spread`.
  The mean is computed (skipping NaN).
- Spearman correlation is left out. It is the function parameter `corr`.
- Monthly IC means, standard deviations and ICIR
  (`calculate_monthly_icir`) are left out. The screening and retirement
  take the two monthly tables as inputs.
- Ties in the score sort are left out. pandas' quicksort does not fix the
  order of equal scores, so `SortDesc` is one admissible order. The
  proved properties (partition, ranking, count, weights) hold for every
  order.
- `pd.concat` in the weighted timing signal is assumed to align on date.
  Each index row is scored with the breadth of its own date.
- The `000001.SH` filter of the three-vote timing signal is left out. Its
  rows are given as `IndexDay` rows.
- Number formatting in the metric table (`:.2%`, `:.2f`, `days`) is left
  out. The table holds the values.
- Floating point is left out: arithmetic is exact over reals, and NaN is
  `Undef`. A division by a zero float share gives `Undef` here, where
  pandas gives infinity.
- Dict iteration order in the backtest is left out. Ledger, cache and
  snapshots are maps.
- File and log side effects are left out. This covers directory creation,
  `shutil.move`, the retirement log with its time stamp, and the CSV
  writes. Whether a factor's file exists is the input set `present`.
- The custom `future_return_col` name is left out. The future return is a
  fixed field of each row.
- Backtest.RunBacktest, Backtest.Engine.Step and Backtest.AdjustPositions require positive
  closes and positive schedule weights. A zero close divides by zero
  in pandas. A zero weight beside positive ones only buys 0 shares, but
  when every priced weight is 0 the rescaling at strategy/backtest.py:106
  divides 0 by 0. The selection step always gives positive weights 1/k.
- Performance.Return and the value-series lemmas require non-negative values (a
  net-value series); zero or negative values would give infinite returns.
- FactorAnalysis.TrackAndRemove requires distinct factor names. A
  duplicated DataFrame column name would make `icir_df.at` return a
  series.
- Sentiment.ConsecutiveLimitUp and Sentiment.SentimentFactors require at
  most one row per (code, date). With duplicates, the order of equal dates
  in `sort_values` is not fixed.
- Sentiment.MergeHeatAsWritten and Sentiment.MergeHeat look the heat up
  per date rather than performing the pandas merge. With one row per date
  in the daily statistics, the two coincide.
- The market flag columns `is_limit_up` and `is_limit_down` are natural
  numbers in the model, as `astype(int)` makes them on the stock side.

## Findings

The pipeline members (`StrategyTiming.CombinedTiming`,
`Performance.Metrics`, `Sentiment.SentimentFactors`, `Backtest.RunBacktest` and
the `Engine` methods) compute what the code does as written. Each
corrected definition below is proved beside them and is used only where
a row above says "corrected".

| source | as written | input that shows it | evidently intended | confidence | as-written member | corrected member |
|---|---|---|---|---|---|---|
| strategy/backtest.py:59 | `capital = daily_value` replaces capital by the value of the holdings, so cash is never carried | any flatten date, or any date before the first rebalance: the ledger is empty, capital becomes 0, and every later value is 0 | a flattened or idle portfolio keeps its capital as cash | not executed | Backtest.FlattenIsPermanent | Backtest.CashFlattenKeepsCapital |
| strategy/timing_signal.py:69-70 | short threshold 0.33 | votes 1, 0, 0 (two bearish): mean 1/3 > 0.33 gives NaN | two or more bearish votes give 0, as the comment above the thresholds says | not executed | StrategyTiming.FinalAsWrittenClasses | StrategyTiming.FinalIsMajority |
| utils/performance.py:63 | `.days` on the difference of two integer index labels | values 2, 1, 2: trough at 1, recovery at 2, `int` has no `.days` and AttributeError is raised | the number of periods from the trough to the recovery | not executed | Performance.RecoveryAsWrittenFails | Performance.RecoveryMeaning |
| factors/sentiment_factors.py:44-49 | without flag columns, `daily_stats` has an unnamed index, so the merge on `trade_date` has no key | market data without `is_limit_up`: the merge raises KeyError | every stock row gets a missing market heat | not executed | Sentiment.MergeHeatDiffers | Sentiment.MergeHeat |
