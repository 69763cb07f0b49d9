# Gem Charts: verified models of the trade simulators, audits and live chart

A Dafny 4.11 model of the self-contained algorithms of the repository, with proofs of what
they compute. `dafny verify dfyconfig.toml` checks everything.

Where the source changes state step by step, the model has a method with the same branches,
constants and hand-duplicated long and short halves. Each method is proved against a
specification written in different terms, and the theorems are proved about that specification.

* **Candle-path simulator** (`CandlePath`, `CandlePathTheorems`, `ComboPath`, `CandlePathOutcomes`). Both copies of the
  bar-by-bar loop are proved equal to a closed form that carries no state: the trade is seen from
  its entry, in its own direction, and its outcome is read off *first passages* (the first bar that
  reaches a target, the breakeven threshold, the stop). From there: what a lower threshold can and
  cannot change, thresholds that never act, long/short mirror symmetry, no lookahead, the exact
  case in which the two copies disagree, and both reports in candle prices alone.
* **Liquidity hunter** (`LiquidityPools`, `LiquidityPoolTheorems`, `HunterWalk`,
  `HunterWalkTheorems`, `LiquidityHunter`, `HunterTheorems`, `HunterMirror`, `HunterOutcomes`,
  `HunterSummary`). Pools are shared
  objects with an `isSwept` field; a run is a function of the set of pools already swept. Proved: the
  first-passage meaning of the forward walk, pool consumption over any series of runs, trade
  spacing and counts, when a whole run is mirror-symmetric, which pools exist, what each bar consumes and
  records in candle prices, and when a pool in use depends on bars that are still to come.
* **Session reconciliation** (`Reconcile`, `ReconcileTheorems`). The event log folded into positions,
  first-fit matching that is one-to-one, maximal and half-optimal, and who is matched and what each row
  says on the fields of setups and positions.
* **Performance accounting** (`Performance`, `PerformanceTheorems`, `LossStreaks`,
  `ConcurrencyAudit`). One-pass loops against all-pairs, product and all-runs definitions.
* **Live chart** (`LiveChart`, `LiveChartTheorems`). The streamed series, the binary search that
  relies on its order, and the meaning of an alert over any run of ticks.
* **Synthetic candles** (`CandleGenerator`). The generator behind the parity audit.

Shared helpers: `Market` (candles, options), `Decimal` (`toFixed` rounding), `Ordering` (stable sort,
filters, lists without repetition, counting of spaced indices).

## Findings

* Lowering the early-breakeven threshold can change a trade only into a breakeven scratch, on every
  well-formed market, if and only if the stop is on the losing side or the ratchet bar is protected
  (`OnlyScratchesIff`). Every other setup has a market on which the later threshold is stopped out and
  the earlier one wins (`WinningSideStopCounterexample`). The only caller passes `true` for the
  protection (scripts/audit_early_be_candle_path.ts:322), so the failing case belongs to the function's
  parameter and not to the script's runs.
* The two simulator copies agree on the exit bar always and on the booked R except exactly when the hold
  window expires after the first target: 0.50 against 0.00 (`CopiesAgree`).
* A swing pool with a lookback above 5 can be in use before the bars that confirm it exist; `main`
  uses 15 and 25 (`SwingsKnownInTimeIff`, `LongLookbackLeaks`). A session's pools are settled at a bar
  if and only if none of the session's bars is at or after it (`SessionSettledIff`). On the UTC clock and
  an unbroken series that is from seven hours after midnight on (`UtcSessionSettledIff`), while the
  pools are in use from the 6th to the 299th bar after midnight: with three-minute candles the bars 6 to
  139 use a price that later bars can still change, with one-minute candles all of them do.
* A timed-out hunter trade with at least 100 bars after its fill is priced and timed one bar after the
  last bar it counts as held (`ExitTiming`).
* A hunter run on mirrored prices and pools is the mirror image of the run if and only if none of the
  attempts it makes is a sweep whose risk passes only the short cut-off, 0.50 against 0.80 (`RunMirror`).
* First-fit matching can match half of what is possible, and never less (`FirstFitCanLoseHalf`,
  `MatchingIsHalfOptimal`).
* Whatever the results, no month falls further than the whole curve if and only if no month is
  interrupted in the list by a trade of another month (`MonthsStayWithinIff`); chronological order is
  enough (`MonthDrawdownAtMostGlobal`). The script meets only that case: its adapters return
  trades sorted by timestamp (src/lib/quantEngine/equityCalculator.ts:477, :904) and filtering keeps the order.
* The concurrency audit compares neighbours only, and is still exact on any list
  (`AuditIsExact`, `RunAudit`); it needs no assumption on exits, only that no entry is negative.
* A generated candle depends on its distance from the start, not on its timestamp (`CandlesShift`).

## Modelling conventions

* Prices, volumes and R-multiples are exact reals; times and indices are integers.
  `parseFloat(x.toFixed(2))` is modelled by `Decimal.Fixed2` on exact reals.
* A division by a zero risk yields an infinite excursion, as it does in the source (`Excursion`).
* Day, hour and month keys are functions given as parameters, the UTC hour and day of
  `UtcSessionSettledIff` apart; the engines' output (setups, trades) is
  an arbitrary input.
* The risk cut-offs (0.80 for longs, 0.50 for shorts), the fill on the signal bar, and the full loss
  booked for a time-out without first target are those of the code. `inTrade` is never set, so nothing here says
  that the hunter's trades do not overlap.
* Theorems whose names end in `ByPrices` or `ByFields` state results on candle prices and record
  fields, without the functions that the methods are proved against.
* `hide` statements only narrow what a proof looks at.

## Model

| member | source | states |
|---|---|---|
| CandlePath.IndexMapIsLastIndex | scripts/audit_early_be_candle_path.ts:31-35 | a timestamp is mapped exactly when some candle has it, and then to the last such candle |
| CandlePath.BuildCandleMap | scripts/audit_early_be_candle_path.ts:31-35 | the look-up loop builds that map |
| CandlePath.TrackExcursions | scripts/audit_early_be_candle_path.ts:127-138 | the running maxima are the excursions of the bars so far, in either direction |
| CandlePath.CheckLongBar | scripts/audit_early_be_candle_path.ts:140-215 | the four checks of a long bar leave or continue as the direction-free rule says |
| CandlePath.CheckShortBar | scripts/audit_early_be_candle_path.ts:216-289 | the hand-duplicated short checks obey the same rule |
| CandlePath.WalkIsFirstPassage | scripts/audit_early_be_candle_path.ts:114-303 | carrying flags and a moving stop from bar to bar gives the outcome defined by first passages alone |
| CandlePath.WalkBars | scripts/audit_early_be_candle_path.ts:120-303 | the loop finds that exit bar, outcome, booked R and both excursions |
| CandlePath.SimulateExactCandlePath | scripts/audit_early_be_candle_path.ts:86-304 | the full report, for every setup, threshold and policy, is the first-passage report; a setup without a candle reports its recorded fields |
| CandlePathTheorems.MfeIsMaximum | scripts/audit_early_be_candle_path.ts:117-138 | the reported MFE is the largest favourable excursion floored at zero, infinite exactly when the risk is zero and some bar is favourable |
| CandlePathTheorems.StoppedOutIff | scripts/audit_early_be_candle_path.ts:140-214 | STOPPED_OUT if and only if the first eventful bar pierces the stop and meets neither TP1 nor the threshold |
| CandlePathTheorems.LockStep | scripts/audit_early_be_candle_path.ts:163-173 | two runs in lock step differ only by the earlier one scratching at breakeven |
| CandlePathTheorems.FirstBarDecides | scripts/audit_early_be_candle_path.ts:171-173 | with the stop beyond the entry and same-bar protection the first well-formed bar decides both runs alike or by a scratch |
| CandlePathTheorems.LowerThresholdOnlyScratches | scripts/audit_early_be_candle_path.ts:306-322 | with the stop on the losing side, or with protection and well-formed candles: for thresholds t1 <= t2 the run at t1 ends BE_SCRATCH or has the same whole report as at t2 |
| CandlePathTheorems.OnlyScratchesIff | scripts/audit_early_be_candle_path.ts:163-214 | over all well-formed markets and all t1 <= t2, lowering the threshold only scratches a setup if and only if its stop is on the losing side or the ratchet bar is protected |
| CandlePathTheorems.WinningSideStopCounterexample | scripts/audit_early_be_candle_path.ts:171-214 | for every long or short with its stop beyond the entry, a well-formed market on which, unprotected, threshold 0.9 is stopped out and 0.5 wins in full |
| CandlePathTheorems.HighThresholdsAgree | scripts/audit_early_be_candle_path.ts:306-309 | all thresholds of at least 1.0 give one and the same report, the 999 baseline included |
| CandlePathTheorems.MirrorSymmetry | scripts/audit_early_be_candle_path.ts:127-289 | negating prices maps a long run to a short run, and back, with outcome, R, MFE, MAE and exit unchanged |
| CandlePathTheorems.NoLookahead | scripts/audit_early_be_candle_path.ts:120-289 | a report that exits on price does not depend on candles after its exit bar |
| CandlePathTheorems.HoldingIsBounded | scripts/audit_early_be_candle_path.ts:120-125 | between 1 and 289 bars are held and the exit time is that of the last of them |
| CandlePathOutcomes.ThresholdIsPrice | scripts/audit_early_be_candle_path.ts:127-165 | the breakeven threshold is met exactly once some bar so far gained threshold times risk; with no risk, once any bar gained |
| CandlePathOutcomes.OutcomeByPrices | scripts/audit_early_be_candle_path.ts:106-303 | for every series, setup, threshold and policy, in candle prices alone: the one event that ends the trade fixes outcome, booked R, exit bar and exit time; without one the window runs out on its last bar |
| CandlePathOutcomes.ExcursionsByPrices | scripts/audit_early_be_candle_path.ts:127-138 | MFE and MAE display the largest gain and pain of the bars held over the risk, floored at zero; infinite exactly with no risk and some gain or pain |
| CandlePathOutcomes.UnmatchedReport | scripts/audit_early_be_candle_path.ts:91-104 | a setup without a candle at its retest time reports its recorded fields, missing ones as zero |
| ComboPath.CheckLongBar | scripts/audit_combos.ts:64-87 | the second copy's long checks obey the shared rule with same-bar protection |
| ComboPath.CheckShortBar | scripts/audit_combos.ts:88-112 | the second copy's short checks obey it too |
| ComboPath.WalkBars | scripts/audit_combos.ts:56-114 | the second copy's loop returns the setup closed at the first-passage exit |
| ComboPath.SimulateExactCandlePath | scripts/audit_combos.ts:45-115 | for every setup and threshold it returns the setup so closed, or untouched when no candle matches |
| ComboPath.ExpiredStage1Iff | scripts/audit_early_be_candle_path.ts:292-303 | a trade never closed has banked its first target exactly when some bar reached it |
| ComboPath.CopiesAgree | scripts/audit_combos.ts:45-115 | the copies agree on the exit bar always and on R except exactly when the window expires after TP1; on unmatched setups exactly when the recorded fields are present |
| CandlePathOutcomes.SecondCopyByPrices | scripts/audit_combos.ts:45-115 | the second copy changes exactly outcome, R, exit time and fill flags of the setup, each by the event in candle prices that ends the trade; a window that runs out is booked at zero |
| CandlePathOutcomes.SecondCopyUnmatched | scripts/audit_combos.ts:46-47 | a setup without a candle is handed back as it is |
| LiquidityPools.IsExtreme | scripts/run_1m_3m_liquidity_hunter.ts:113-121 | the window loop decides strict maximum and strict minimum |
| LiquidityPools.ExtractSwings | scripts/run_1m_3m_liquidity_hunter.ts:111-146 | the scan creates distinct unswept pools, exactly those of the strict extremes, in order |
| LiquidityPools.CollectSessions | scripts/run_1m_3m_liquidity_hunter.ts:148-162 | the session map after all candles |
| LiquidityPools.SessionIsExtreme | scripts/run_1m_3m_liquidity_hunter.ts:148-162 | a session's high and low are attained bounds of all its bars, dated by its first bar |
| LiquidityPools.ExtractLiquidityPools | scripts/run_1m_3m_liquidity_hunter.ts:108-187 | all pools as new, distinct, unswept objects in stable time order |
| Ordering.SortByCorrect | scripts/run_1m_3m_liquidity_hunter.ts:185 | the sort orders by key and keeps exactly the elements |
| Ordering.SortIsStable | scripts/run_1m_3m_liquidity_hunter.ts:185 | elements with equal keys keep their order |
| Ordering.KeepIsSelection | scripts/compare-1y-scans.ts:316-318 | filtering keeps the elements at the places that satisfy the test, all of them, in order |
| LiquidityPoolTheorems.SwingPoolIff | scripts/run_1m_3m_liquidity_hunter.ts:112-145 | the pools extracted hold exactly one swing high (low) from bar i, with its price, time and side, if every bar within L of it is strictly lower (higher), and none otherwise |
| LiquidityPoolTheorems.SessionPoolIff | scripts/run_1m_3m_liquidity_hunter.ts:148-183 | the pools extracted hold exactly one Asian high (BSL) and one Asian low (SSL) of a day if it has a session bar, and none otherwise; priced by the highest high and lowest low of all session bars and dated by the first |
| LiquidityPoolTheorems.SwingsAreApart | scripts/run_1m_3m_liquidity_hunter.ts:117-121 | two swing highs, or lows, are more than L bars apart |
| LiquidityPoolTheorems.SwingCount | scripts/run_1m_3m_liquidity_hunter.ts:112-146 | at most floor((n-2L-1)/(L+1))+1 swing highs, and as many lows |
| LiquidityPoolTheorems.LongLookbackLeaks | scripts/run_1m_3m_liquidity_hunter.ts:234-237 | for every L > 5, two histories equal before a bar of which one has an eligible pool there and the other has not |
| LiquidityPoolTheorems.SwingsKnownInTimeIff | scripts/run_1m_3m_liquidity_hunter.ts:234-237 | eligible swing pools are settled by earlier bars if and only if L <= 5 |
| LiquidityPoolTheorems.RunningSessionMoves | scripts/run_1m_3m_liquidity_hunter.ts:148-183 | on any series and calendar a higher high on any bar of a session raises the price of its pool |
| LiquidityPoolTheorems.SessionSettledIff | scripts/run_1m_3m_liquidity_hunter.ts:148-183 | for every series, calendar, bar i and day: all histories with the same timestamps and the same bars before i hold the same session if and only if no session bar is at or after i |
| LiquidityPoolTheorems.UtcSessionSettledIff | scripts/run_1m_3m_liquidity_hunter.ts:152-156 | on the UTC clock and an unbroken series a session is settled exactly from seven hours after midnight on |
| LiquidityPoolTheorems.FinishedSessionSettled | scripts/run_1m_3m_liquidity_hunter.ts:148-183 | two histories equal before bar i, with no bar of the session from i on, hold the same session |
| HunterWalk.WalkIsFirstPassage | scripts/run_1m_3m_liquidity_hunter.ts:295-328 | the walk with its moving stop computes the first-passage exit |
| HunterWalk.WalkLong | scripts/run_1m_3m_liquidity_hunter.ts:290-334 | outcome, exit price, exit time and bars held of a long are those of the first-passage exit, time-outs included |
| HunterWalk.WalkShort | scripts/run_1m_3m_liquidity_hunter.ts:427-467 | the short walk likewise |
| HunterWalkTheorems.OutcomeIff | scripts/run_1m_3m_liquidity_hunter.ts:298-334 | STOPPED_OUT, WIN_FULL and WIN_TP1_SCRATCH each if and only if their first-passage condition holds; never PENDING |
| HunterWalkTheorems.ExitTiming | scripts/run_1m_3m_liquidity_hunter.ts:298-334 | the exit is strictly after the entry, 1 to 99 bars are held, and a time-out with at least 100 bars after the fill is dated one bar later than held |
| HunterWalkTheorems.WalkMirror | scripts/run_1m_3m_liquidity_hunter.ts:298-334 | mirrored prices give the opposite walk with the same outcome and timing and the negated exit price |
| HunterOutcomes.WalkByPrices | scripts/run_1m_3m_liquidity_hunter.ts:290-334 | for every fill and levels, long or short, in candle prices alone: the event that ends the walk fixes outcome, exit price, exit time and bars held; a time-out exits at the close of bar fill + 100 or the last |
| LiquidityHunter.PrecomputeVolumeSma | scripts/run_1m_3m_liquidity_hunter.ts:215-221 | the array holds the mean volume of the 20 bars before each bar |
| LiquidityHunter.AwaitDip | scripts/run_1m_3m_liquidity_hunter.ts:273-283 | the retest wait finds the first dip within five bars if there is one |
| LiquidityHunter.AwaitRally | scripts/run_1m_3m_liquidity_hunter.ts:411-420 | the short retest wait likewise |
| LiquidityHunter.Book | scripts/run_1m_3m_liquidity_hunter.ts:336-352 | gross, fee and net R of an outcome; dividing by the reciprocal notional equals price over risk, zero prices included |
| LiquidityHunter.TryLong | scripts/run_1m_3m_liquidity_hunter.ts:242-380 | one pool tried long: not swept, swept only, or a trade filled on the signal bar |
| LiquidityHunter.TryShort | scripts/run_1m_3m_liquidity_hunter.ts:382-512 | one pool tried short, by the mirrored rules with its own risk cut-off |
| LiquidityHunter.FilterActive | scripts/run_1m_3m_liquidity_hunter.ts:234-237 | the unswept pools between 6 and 299 bars old, in order |
| LiquidityHunter.TryPools | scripts/run_1m_3m_liquidity_hunter.ts:239-513 | pools are tried in order and marked until one is traded; no other field changes |
| LiquidityHunter.RunLiquidityHunterSimulation | scripts/run_1m_3m_liquidity_hunter.ts:206-514 | trades, swept pools, backing pools and signal bars of a run as a function of the pools swept before |
| HunterOutcomes.VolumeSumSplits | scripts/run_1m_3m_liquidity_hunter.ts:215-221 | volume sums are additive and start from single bars |
| HunterOutcomes.AttemptByPrices | scripts/run_1m_3m_liquidity_hunter.ts:242-262 | a bar sweeps a pool exactly when its wick pierces it by the minimum and it snaps back by body or wick; it trades it exactly when the risk is above 0.80 (long) or 0.50 (short) and within the limit |
| HunterOutcomes.TradeByPrices | scripts/run_1m_3m_liquidity_hunter.ts:264-374 | every field of a trade record from the bar, the pool, the configuration and the walk: levels, gross R, taker fees, rounding |
| HunterOutcomes.BarByPrices | scripts/run_1m_3m_liquidity_hunter.ts:223-514 | a bar in the cooldown or too quiet changes nothing; any other consumes exactly the pools it sweeps up to the first one worth a trade, and trades that one |
| HunterOutcomes.ConsumedPoolWasSwept | scripts/run_1m_3m_liquidity_hunter.ts:234-255 | for every pool swept during a run there is a scanned bar on which it was 6 to 299 bars old and whose wick pierced it and snapped back |
| HunterOutcomes.SweptPoolIsConsumed | scripts/run_1m_3m_liquidity_hunter.ts:223-374 | a scanned pool that the bar sweeps ends up swept unless an earlier pool was traded, and if worth a trade the run records that trade on that bar against that pool |
| HunterTheorems.RunKeepsInvariant | scripts/run_1m_3m_liquidity_hunter.ts:223-514 | after every bar: each trade stands by the rules on an eligible pool of its own, spaced, with the cooldown set by the last |
| HunterTheorems.PoolsAreConsumed | scripts/run_1m_3m_liquidity_hunter.ts:234-255 | sweeping is never undone, trades use distinct pools unswept before, and never outnumber the newly swept pools |
| HunterTheorems.OneTradePerPoolEver | scripts/run_1m_3m_liquidity_hunter.ts:583-631 | over any series of runs on one pool array each pool backs at most one trade |
| HunterTheorems.RunTwice | scripts/run_1m_3m_liquidity_hunter.ts:587-616 | two successive runs trade disjoint sets of pools |
| HunterTheorems.TradesAreSpaced | scripts/run_1m_3m_liquidity_hunter.ts:223-225 | trades are at least max(1, cooldown) bars apart and at most floor((n-101)/max(1, cooldown))+1 in number |
| HunterTheorems.EveryTrade | scripts/run_1m_3m_liquidity_hunter.ts:264-374 | every trade of every run fills on its signal bar, leaves later, is never PENDING, and a stop-out books exactly -1 |
| HunterTheorems.AttemptMirror | scripts/run_1m_3m_liquidity_hunter.ts:242-262 | mirrored prices sweep alike, and exactly one side trades if and only if the sweep has a risk in (0.50, 0.80] within the wick limit |
| HunterTheorems.TradeMirror | scripts/run_1m_3m_liquidity_hunter.ts:354-374 | a trade taken on both sides has the same outcome, timing and gross R, negated prices and negated fee |
| HunterMirror.ActiveTwins | scripts/run_1m_3m_liquidity_hunter.ts:234-237 | the eligible pools of the mirrored scan are the twins of the eligible pools, in the same order |
| HunterMirror.ScansPart | scripts/run_1m_3m_liquidity_hunter.ts:239-262 | once an attempt of a scan falls between the cut-offs, the two scans do not trade twin pools |
| HunterMirror.RunMirror | scripts/run_1m_3m_liquidity_hunter.ts:206-514 | a run on mirrored prices and pools sweeps and trades the twin pools on the same bars with mirrored trades if and only if no attempt made by the run is a sweep with a risk in (0.50, 0.80] within the wick limit |
| HunterSummary.Summarize | scripts/run_1m_3m_liquidity_hunter.ts:516-548 | outcome counts, final equity as 1000 times the growth product, and the greatest fall from a running high |
| HunterSummary.CountIsCardinality | scripts/run_1m_3m_liquidity_hunter.ts:517-520 | each outcome count is the number of trades with that outcome |
| HunterSummary.RunOutcomesPartition | scripts/run_1m_3m_liquidity_hunter.ts:517-520 | full wins, first-target wins and stop-outs of a run add up to its trades |
| Reconcile.FoldedKeys | scripts/reconcile-session.ts:119-126 | the folded positions are those there were and those of the events, no others |
| ReconcileTheorems.CompletedIsLast | scripts/reconcile-session.ts:116-118 | the completed trades contribute one position for each id that is not empty, the last trade with it |
| ReconcileTheorems.KeysByFirstMention | scripts/reconcile-session.ts:115-127 | positions are listed by the first mention of their id |
| ReconcileTheorems.SpreadIsFieldwise | scripts/reconcile-session.ts:121-124 | each of the thirteen fields of an event replaces the one before unless it is missing |
| Reconcile.FieldIsLatest | scripts/reconcile-session.ts:114-127 | each field holds what the last event mentioning it says, else what the completed trade says |
| Reconcile.ObjectOrderIsSorted | scripts/reconcile-session.ts:127 | an object lists its index-like keys first and ascending, and every key once |
| ReconcileTheorems.IndexKeyIff | scripts/reconcile-session.ts:127 | the keys an object lists first are exactly the decimal spellings of the numbers below 2^32-1 |
| Reconcile.CollectPositions | scripts/reconcile-session.ts:114-127 | the fold yields one position for each id, in the order of `Object.values` |
| Reconcile.SuffixIsIgnored | scripts/reconcile-session.ts:153-154 | stripping undoes the appending of any candle-index suffix |
| ReconcileTheorems.StripIsExact | scripts/reconcile-session.ts:153-154 | stripping removes an appended candle index and changes no id without one |
| Reconcile.MatchingIsOneToOne | scripts/reconcile-session.ts:145-172 | no position is given to two setups |
| Reconcile.MatchingIsFirstFit | scripts/reconcile-session.ts:156-172 | a setup gets its first free compatible position; an unmatched one has all its compatible positions taken by earlier setups |
| ReconcileTheorems.AssignmentByFields | scripts/reconcile-session.ts:156-172 | a matched setup shares a stripped id with its position, or faces the same way, within an hour and with the same anchor; it got the first free such position, and an unmatched one has all of them taken |
| Reconcile.MatchingIsHalfOptimal | scripts/reconcile-session.ts:145-172 | any one-to-one compatible matching is at most twice as large |
| Reconcile.FirstFitCanLoseHalf | scripts/reconcile-session.ts:145-172 | an input where first-fit matches one setup and two could be |
| Reconcile.FindFree | scripts/reconcile-session.ts:156-169 | the search returns the first free compatible position |
| Reconcile.MatchSetups | scripts/reconcile-session.ts:145-230 | the loop gives the first-fit assignment and one row for each setup in order |
| Reconcile.RowStatusMeans | scripts/reconcile-session.ts:171-229 | MISSED_IN_LIVE means a retested setup whose every compatible position went to an earlier one; a row with a live entry shows a compatible filled position |
| ReconcileTheorems.MatchedRowByFields | scripts/reconcile-session.ts:171-212 | every cell and the status of a matched row from the fields of setup and position: NO_RETEST_PASS, IN_FLIGHT_ACTIVE, EXACT_MATCH and SLIPPAGE_VARIANCE each decided |
| ReconcileTheorems.OtherRowsByFields | scripts/reconcile-session.ts:214-247 | the cells and status of unmatched and pre-boot rows |
| Reconcile.BootTimeSplits | scripts/reconcile-session.ts:105-112 | boot time splits the day's setups without loss or repetition |
| ReconcileTheorems.RowsByFields | scripts/reconcile-session.ts:96-112 | live rows are for the setups of the day from boot time on, the others for those before, all of them and in scan order |
| Reconcile.RunReconciliation | scripts/reconcile-session.ts:96-250 | every setup of the day gets one row, live or pre-boot, from a one-to-one assignment |
| Performance.VerdictsPartition | scripts/run_1y_quant_study.ts:202-214 | wins, losses and scratches add up to the trades |
| PerformanceTheorems.CountsByFields | scripts/run_1y_quant_study.ts:202-214 | the counters are the numbers of trades that are wins, losses and scratches by R and outcome |
| PerformanceTheorems.MonthByFields | scripts/run_1y_quant_study.ts:255-258 | a month is made of exactly its own trades, in their order |
| Performance.CalculateMaxDrawdownR | scripts/compare-1y-scans.ts:207-224 | the one-pass drawdown is the attained maximum of P(i)-P(j) over all i <= j, and the peak that of P |
| Performance.StepCurve | scripts/run_1y_quant_study.ts:188-192 | one step keeps net R, peak and drawdown exact |
| Performance.StepAccount | scripts/run_1y_quant_study.ts:194-200 | one step keeps equity at 10000 times the product of (1+r/50) and the greatest percentage fall from a running high |
| Performance.StepTally | scripts/run_1y_quant_study.ts:202-214 | one step keeps the outcome counts |
| Performance.Bucket | scripts/run_1y_quant_study.ts:216-246 | one step keeps every month's record equal to the counts of that month's trades, months listed as first met |
| Performance.FinalizeMonths | scripts/run_1y_quant_study.ts:249-273 | each month gets the all-pairs drawdown of its own trades |
| Performance.AnalyzeTrades | scripts/run_1y_quant_study.ts:144-273 | counts, curve, account and months all meet their definitions |
| PerformanceTheorems.MonthsConserve | scripts/run_1y_quant_study.ts:216-246 | month counts and month net R sum to the totals |
| PerformanceTheorems.MonthsStayWithinIff | scripts/run_1y_quant_study.ts:258-273 | for any trading times and calendar: under every assignment of results no month falls further than the whole curve if and only if no month is interrupted |
| PerformanceTheorems.MonthDrawdownAtMostGlobal | src/lib/quantEngine/equityCalculator.ts:476-477 | trades sorted by time meet that condition under every calendar |
| PerformanceTheorems.ReportedMonthsStayWithin | scripts/run_1y_quant_study.ts:249-273 | in a report on a list without interrupted months, every reported month drawdown is that of the month's own trades and at most the reported whole one |
| PerformanceTheorems.InterruptedMonthFallsFurther | scripts/run_1y_quant_study.ts:258-273 | for every interrupted month, results with which it falls at least twice as far as the whole curve |
| PerformanceTheorems.FinalEquityIgnoresOrder | scripts/run_1y_quant_study.ts:194-197 | final equity and net R are the same for every permutation of the trades |
| PerformanceTheorems.CompoundingBounds | scripts/run_1y_quant_study.ts:181-200 | if no trade loses more than 1R equity stays at least 10000*0.98^n and the drawdown between 0 and 100*(1-0.98^n) percent |
| LossStreaks.AppendLoss | scripts/forensic_sr_audit.ts:397-402 | a loss makes a new maximal run of length k exactly when k-1 losses stood at the end |
| LossStreaks.AppendWin | scripts/forensic_sr_audit.ts:394-396 | a win changes no count of runs |
| LossStreaks.LedgerByFields | scripts/forensic_sr_audit.ts:388-405 | the win and loss counts are numbers of trades by their flags and R; a missing R counts as zero |
| LossStreaks.DecidedByFields | scripts/forensic_sr_audit.ts:394-405 | the ledger that streaks are counted on is the sequence of the trades that are wins or losses by their fields |
| LossStreaks.AuditLedger | scripts/forensic_sr_audit.ts:376-406 | without scratches, the streak counters are the numbers of maximal loss runs of length at least 3 and 4 and the longest run; the counts add up and the drawdown is all-pairs |
| ConcurrencyAudit.AuditTrades | scripts/compare-1y-scans.ts:328-349 | duplicates are trades less distinct entries; overlaps are the trades entering before their predecessor's exit |
| ConcurrencyAudit.AuditIsExact | scripts/compare-1y-scans.ts:328-354 | in entry order both counters are zero if and only if every two trades are apart and no entry is negative |
| ConcurrencyAudit.RunAudit | scripts/compare-1y-scans.ts:316-354 | on the fields of the setups in any order: the audit passes if and only if of every two executed setups one enters later and not before the other's exit, and no executed entry is negative |
| LiveChart.LiveSeriesCanvasUpdater.UpdateSeries | src/components/Chart.tsx:3093-3145 | one streamed bar merges into the series as specified and keeps it strictly ascending |
| LiveChart.LiveSeriesCanvasUpdater.ExecuteAlert | src/components/Chart.tsx:1866-1871 | the flip triggers every alert of that id and no other |
| LiveChart.LiveSeriesCanvasUpdater.EvaluateAlerts | src/components/Chart.tsx:3147-3205 | one run of the alert effect: alerts, reference price, processed bar and executions |
| LiveChart.LiveSeriesCanvasUpdater.FindLive | src/components/Chart.tsx:1273 | look-up over the live series finds a candle if and only if the second is present |
| LiveChart.FindCandleByTime | src/components/Chart.tsx:23-35 | the binary search terminates, returns only a matching candle, and on an ascending series misses none |
| LiveChartTheorems.MergeStep | src/components/Chart.tsx:3097-3139 | a bar changes nothing, replaces the last candle of the same second, or appends; a positive last close moves by at most 15% |
| LiveChartTheorems.MergeByFields | src/components/Chart.tsx:3097-3139 | on fields: a bar more than 15% off, older, or open in the last second is dropped; else its candle replaces the last of the same second or is appended |
| LiveChartTheorems.StreamKeepsSeries | src/components/Chart.tsx:3107-3139 | after any stream the series is ascending and all but its last starting candle untouched |
| LiveChartTheorems.StreamKeepsGate | src/components/Chart.tsx:3101-3105 | a positive last close stays positive over any stream and drifts by at most 0.85^n or 1.15^n |
| LiveChartTheorems.LookUpAfterStream | src/components/Chart.tsx:23-35 | after any stream the look-up finds the one candle of a second if and only if there is one |
| LiveChartTheorems.TickOnAlert | src/components/Chart.tsx:3163-3204 | one tick executes an alert exactly once if it fires, else not at all, and flips no other |
| LiveChartTheorems.TouchFiresIff | src/components/Chart.tsx:3165-3178 | a TOUCH alert fires exactly when the reference price was off its level and the new one is not strictly on the same side |
| LiveChartTheorems.FiredInOrder | src/components/Chart.tsx:3163-3204 | a tick executes the touched alerts, then the closing ones, each in list order |
| LiveChartTheorems.TouchAlertMeaning | src/components/Chart.tsx:3165-3178 | a TOUCH alert is active after any run if and only if every later price stayed strictly on its side, and is executed at most once |
| LiveChartTheorems.CloseAlertMeaning | src/components/Chart.tsx:3180-3202 | a closing alert is active after any run if and only if no newly closed bar satisfied it, and is executed at most once |
| CandleGenerator.TimeframeToMs | src/lib/quantEngine/structuralBootstrap.ts:227-237 | every interval is a positive whole number of minutes |
| CandleGenerator.TimeframeTable | src/lib/quantEngine/structuralBootstrap.ts:227-237 | the known intervals in minutes, fifteen for any other |
| CandleGenerator.SeedStepIsBijective | scripts/audit_quant_lab_parity.ts:37-41 | seeds stay in range and stepping permutes them |
| CandleGenerator.SeedsNeverMerge | scripts/audit_quant_lab_parity.ts:37-41 | different seeds lead to different seeds after any number of draws |
| CandleGenerator.GenerateDeterministicCandles | scripts/audit_quant_lab_parity.ts:31-72 | the loop generates the specified series |
| CandleGenerator.SplitIsExact | scripts/audit_quant_lab_parity.ts:49-53 | after rounding to cents the two taker volumes make up the volume exactly |
| CandleGenerator.RoundedIsWellShaped | scripts/audit_quant_lab_parity.ts:44-65 | l <= min(o,c) <= max(o,c) <= h and exact volumes after rounding |
| CandleGenerator.SeriesIsSound | scripts/audit_quant_lab_parity.ts:31-72 | for every start, end and interval: exactly the multiples from the aligned start to the end, each well shaped, each opening at the previous close |
| CandleGenerator.SeriesInClosedForm | scripts/audit_quant_lab_parity.ts:31-72 | candle k of every series, every field, from draws 4k+1 to 4k+4 of one sequence and the price before it |
| CandleGenerator.ExtendingOnlyAppends | scripts/audit_quant_lab_parity.ts:43-69 | a later end only appends candles |
| CandleGenerator.CandlesShift | scripts/audit_quant_lab_parity.ts:35-69 | a shifted start gives the same candles at shifted times |
| Decimal.CentsMonotone | scripts/audit_quant_lab_parity.ts:55-63 | rounding to cents keeps order |
| Decimal.Fixed2IsNearest | scripts/audit_early_be_candle_path.ts:157-158 | rounding goes to the nearest hundredth, a tie away from zero |
| Decimal.Fixed3IsNearest | scripts/run_1m_3m_liquidity_hunter.ts:370 | rounding goes to the nearest thousandth, a tie away from zero |

## Left out

- Engines (`SweepReclaimEngine`, `OrderBlockEngine`, `equityCalculator`, structural bootstrap): their output is an arbitrary input here.
- Floating-point rounding error: arithmetic is on exact reals.
- Calendar arithmetic beyond the UTC hour and day: elsewhere hours, days and months are keys given as functions of the timestamp.
- Display rounding of `analyzeTrades` and of the hunter's summary, and its percentages, profit factors, gross sums and expected values: sums over the trades and quotients of the modelled counts.
- Trade ids and pool names of the hunter: a trade is identified by its direction and entry time, a pool by its kind and bar or day.
- Summary averages and profit factors of the hunter: sums over the modelled trades.
- Overlap of hunter trades: the code allows it, and no theorem excludes or bounds it.
- Text cells of the reconciliation report and its markdown: only numbers and statuses are modelled.
- A position id `__proto__`: JavaScript treats that key of an object specially.
- LiveChart.FindCandleByTime: requires at most 2^30 candles, because beyond that the index sum no longer fits the 32-bit shift.
- LiveChart.LiveSeriesCanvasUpdater.FindLive: requires at most 2^30 candles, as the search it calls does.
- LiveChartTheorems.LookUpAfterStream: requires at most 2^30 candles after the stream, for the same reason.
- React scheduling: each effect is one atomic step, and alerts are not edited while ticks run.
- Canvas drawing, toasts, sounds and AI scans started by an alert: represented by the list of executed ids.
- Running drawdown loops repeated in the simulator scripts (`scripts/audit_combos.ts:145-150`): the same loop as `CalculateMaxDrawdownR`.
- Monthly breakdown of `scripts/compare-1y-scans.ts`: the same buckets as `analyzeTrades`.
- Network, file, database and console code.
