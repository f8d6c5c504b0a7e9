# Verified model of the trading bot's live-order state and money ledgers

A Dafny 4.11 model of the parts of the bot that must agree with an exchange over unbounded runs, and of
the ledgers, simulators and schedulers attached to them. `dafny verify dfyconfig.toml` checks everything.

| component | files |
|---|---|
| market-maker ladder: matching, decision, placement, runs | `StableSort`, `LadderMatching`, `MarketMaker`, `OrderPlacement`, `MarketMakerRun`, `Adoption`, `MarketMakerSafety`, `MarketMakerLoop`, `OneOrderPerLevel`, `CancelEstimate`, `CycleGuards`, `MarketMaking`, `LadderShape`, `LadderRuns` |
| Auto Buy/Sell tasks: fill accounting, status machine, their combination, the task object | `FillAccounting`, `TaskMachine`, `TaskAccounting`, `StoppedTask`, `TrackedOrders`, `AutoBuySellTask` |
| order journal: reservations, recovery, cancellation | `OrderJournal`, `PendingIntents`, `OrderRecovery` |
| asset ledger: tables, reconciliation | `LedgerTables`, `Reconciliation`, `AdjustedBalances` |
| cross-exchange rebalance and emergency hedge | `OrderBook`, `CycleSizing`, `Alignment`, `LotSteps`, `RebalanceLedger`, `CycleCredit`, `EmergencyHedge` |
| simulators and schedulers | `RelativeValue`, `SpreadSignals`, `PaperTrading`, `TradePrices`, `PaperBacktest`, `BacktestOrders`, `SliceSchedule`, `RequestPacer` |
| balance reserves | `Reserves` |
| shared arithmetic | `Numbers` |

Prices, amounts and times are exact reals. What the exchange, the clock, the log and the risk gate answer
are parameters, and every statement holds for all of their answers unless its `requires` says otherwise.
Code that updates objects or accumulates in loops is modelled as classes and loops; each such method is
tied to a specification function, and the results are proved about those functions and their runs.

## What the proofs found

Some promises hold only under a condition that the code does not establish. Each is stated with its
condition for all inputs, and where that condition does not name one, with an input that breaks it.

- At most one submission per client id is not guaranteed: `reserve` answers `submit` again for a reserved,
  unknown or reconciled row once its `retry_after` has passed, and for a compacted one
  (`OrderJournal.GrantedAtMostOnceExactlyWhen`, `RetryAfterWaitIsSentTwice`).
- A stop that declines to cancel, and the missing-runtime branch of the service loop, release a pending
  stop with orders open (`TaskMachine.PendingEndsExactlyWhen`, `UncancelledStopReleasesOpenOrders`).
- A stop may not be final: the task places further orders when the retry that ended the stop could not be
  logged or its runtime was missing, and a stopped task does after a pause and a resume
  (`StoppedTask.EndedStopIsFinalExactlyWhen`, `FinishedTaskRestsExactlyWhen`, `UnloggedStopPlacesOrder`,
  `ResumedTaskPlacesOrder`).
- An order past its time to live is dropped before the exchange is read again; when that cycle fails, a stop
  with cancellation ends without asking for the order again (`TrackedOrders.StoppedOnlyAfterRelease`,
  `ExpiredOrderIsStoppedUnread`).
- A trade that arrives after its order was counted as final is counted twice
  (`FillAccounting.RefreshIsExactExactlyWhen`, `LateTradeIsCountedTwice`).
- Alignment stops after four attempts and may miss a quantity both venues accept. It succeeds exactly when
  its checks pass and three roundings reach a common lot (`Alignment.AlignmentSucceedsExactlyWhen`,
  `LotSteps.FourAttemptsMayNotSuffice`).
- Alignment accepts amounts within a tolerance that grows with the request, so the result may not be a lot
  of both venues. It is exactly when the smaller amount prepared last is a lot of the other venue, which
  holds for steps on a common quantum above the tolerance (`Alignment.SuccessIsGreatestExactlyWhen`,
  `LotSteps.QuantumSeparates`, `CloseStepsAreTakenAsEqual`).
- After alignment a plan still expects the progress of the unaligned quantity. The completed total of a
  rebalance is at least what its balanced cycles spent at the planned book, and a target can be reported
  complete with less bought (`CycleCredit.CompletedIsBalancedSpendExactlyWhen`, `TargetCompletesWithLessBought`).
- An unbalanced cycle halts the run and its purchase is not counted as completed, so all purchases may
  exceed the completed total, by at most one cycle budget (`CycleCredit.PurchasesExceedByAtMostOneCycle`,
  `CompletedIsPurchasedExactlyWhen`, `UnsoldPurchaseIsNotCompleted`).
- Saving and loading clears a halt when the route changed (`RebalanceLedger.LoadAfterSave`).
- A slice maximum below the minimum is broken by every target above it
  (`SliceSchedule.ScheduleBreaksMaximumExactlyWhen`).

Two more facts a maintainer may want to know:

- The cancel estimate takes a remembered mid of zero for a missing one and the cycle does not. It is exact
  for every missing or positive mid, and both callers pass only such mids
  (`CancelEstimate.EstimateIsExactExactlyWhen`, `EstimateIsExact`, `ZeroMidIsOverestimated`).
- Reserve adjustment is idempotent for reserves of every size, also below the 1e-9 tolerance
  (`Reserves.AccountAdjustmentIsIdempotent`).

## Model

| member | source | states |
|---|---|---|
| StableSort.SortSortsAndPermutes | src/arbitrage_bot/market_maker.py:282-291 | Insertion by rank returns the same elements in ascending rank: the sort both ladder sides go through. |
| StableSort.SortIsStable | src/arbitrage_bot/market_maker.py:282-291 | Elements of equal rank keep their listing order, so ties are resolved by the order the exchange lists. |
| LadderMatching.MatchOpenOrders | src/arbitrage_bot/market_maker.py:258-301 | The fill-sort-zip loops return exactly `OpenOrderIds`, including every early `None`. |
| LadderMatching.MappingIsBijection | src/arbitrage_bot/market_maker.py:258-301 | A returned mapping is a bijection from the plan keys to the open ids, for any prices. |
| LadderMatching.MatchingIsRight | src/arbitrage_bot/market_maker.py:258-301 | When remembered prices are strictly ordered by level, sorting and zipping gives every level its own order id. |
| LadderMatching.MatchingIsRightExactlyWhenRanked | src/arbitrage_bot/market_maker.py:258-301 | The matching is right for every listing order of the exchange if and only if each side is strictly ordered by level. |
| MarketMaker.ComputeRepriceBps | src/arbitrage_bot/market_maker.py:133-195 | The worst price change over all levels, or none when plans differ in venue, size, keys or quotes. |
| MarketMaker.ComputePlanOrderChanges | src/arbitrage_bot/market_maker.py:198-255 | Per level: the price change in bps of the current mid and whether the quote changed, or none when keys do not correspond. |
| MarketMaker.ChangesAre | src/arbitrage_bot/market_maker.py:198-255 | The changes list is positional: entry i compares level i with the remembered row of the same key. |
| MarketMakerLoop.DecideCycle | src/arbitrage_bot/market_maker.py:1228-1378 | The live half of a cycle decides blocked, unchanged, partial, full or initial exactly as the specification does. |
| MarketMakerLoop.SelectCrossed | src/arbitrage_bot/market_maker.py:1325-1378 | The selection loop keeps levels inside the band and replaces the rest, or everything when nothing can be matched. |
| MarketMakerRun.ActivePlanAfterReprice | src/arbitrage_bot/market_maker.py:304-345 | The returned active plan keeps the remembered row of every kept level and the new row of every replaced one. |
| Adoption.AdoptedPlanAgrees | src/arbitrage_bot/market_maker.py:464-538 | A plan adopted from the open orders names, for every row, exactly the open order at that price. |
| Adoption.AdoptedRowsAreOpenOrders | src/arbitrage_bot/market_maker.py:464-538 | Every adopted row is an open order at its own price, worth that price times what is left of it. |
| OrderPlacement.PlacePlan | src/arbitrage_bot/market_maker.py:607-901 | Creation starts after a cancel attempt exactly when a read shows the retained ids and nothing else; the whole book and the reported ids after every outcome, also when responses omit ids. |
| OrderPlacement.NamedAre | src/arbitrage_bot/market_maker.py:871-884 | The reported ids are exactly those of the created orders whose responses carried one. |
| OrderPlacement.FailureKeepsUnreachable | src/arbitrage_bot/market_maker.py:833-870 | After a raising request, an earlier order stays open if and only if its response carried no id or its emergency cancel failed. |
| MarketMakerLoop.Loop.RunCycle | src/arbitrage_bot/market_maker.py:1056-1416 | One live cycle on a mutable loop object is one step of the run relation, whatever the exchange answers. |
| MarketMakerLoop.Loop.StartLiveRun | src/arbitrage_bot/web/background/market_maker.py:905-909 | Starting a live run, also after a recovery, is the step that forgets the remembered plan and mid. |
| MarketMakerSafety.UnchangedHolds | src/arbitrage_bot/market_maker.py:1228-1350 | An unchanged cycle, by either of its two routes, leaves one order per level strictly inside the band. |
| MarketMakerSafety.WholePlacement | src/arbitrage_bot/market_maker.py:1325-1378 | After a fully placed whole ladder every level owns one live order at its prepared price. |
| MarketMakerSafety.PartialPlacement | src/arbitrage_bot/market_maker.py:1325-1378 | After a placed partial replacement the owners are the retained orders plus the new ones, and the active plan names them. |
| MarketMakerSafety.StepKeepsInvariant | src/arbitrage_bot/market_maker.py:1056-1416 | Every event keeps the run invariant: each open order is its level's own order at the remembered price, and prices stay ordered by level. |
| MarketMakerSafety.NoDrift | src/arbitrage_bot/market_maker.py:198-345 | In any run, every unchanged or placed cycle leaves one live order per level strictly inside the effective band of its compared price. |
| MarketMakerSafety.MatchingStaysRight | src/arbitrage_bot/market_maker.py:258-345 | In any such run the matching returns every level's true order id whenever a remembered plan is compared. |
| LadderRuns.BuiltLaddersNeverDrift | src/arbitrage_bot/market_maker.py:198-345 | A run over built ladders whose prices are rounded by at most a tick is spaced when two bands and two ticks fit between levels, so it never drifts. |
| LadderRuns.FreshLoopNeverDrifts | src/arbitrage_bot/web/background/market_maker.py:905-909 | In particular from a start without a remembered plan, on any book of priced orders. |
| CycleGuards.RefusedCycleDoesNothing | src/arbitrage_bot/market_maker.py:1175-1178 | A cycle the risk gate refuses leaves book, plan and mid exactly as they were. |
| CycleGuards.RefusedCyclesChangeNothing | src/arbitrage_bot/market_maker.py:1175-1178 | So does every refused cycle of any run. |
| CycleGuards.InvalidCycleKeepsOrders | src/arbitrage_bot/market_maker.py:1280-1286 | A cycle whose ladder fails validation cancels and creates nothing. |
| CycleGuards.InvalidReplacementDoesNothing | src/arbitrage_bot/market_maker.py:1280-1286 | If the same cycle would have placed a valid ladder, it changes nothing at all. |
| CycleGuards.RebuildIsNeverIdle | src/arbitrage_bot/market_maker.py:1209-1255 | An empty book, missing orders, a forced rebuild, repricing switched off or a large move of mid never leave an approved, valid cycle idle. |
| CycleGuards.RebuildReplacesEverything | src/arbitrage_bot/market_maker.py:1209-1378 | Once such a cycle has placed, the book holds one new order per plan row at its prepared price and no order from before. |
| CycleGuards.KeptExactlyWhen | src/arbitrage_bot/market_maker.py:1291-1350 | A cycle that keeps any order keeps exactly those whose quote changed by at most 0.1% and whose price moved less than the band. |
| CycleGuards.IdleCycleFoundAllStay | src/arbitrage_bot/market_maker.py:1256-1327 | An approved, valid cycle that does nothing found every remembered row within those bounds. |
| CycleGuards.StayingLadderIsLeftAlone | src/arbitrage_bot/market_maker.py:1256-1327 | Conversely, when nothing asks for a rebuild and every row is within them, the cycle does nothing on the exchange. |
| CycleGuards.BandIsBounded | src/arbitrage_bot/market_maker.py:348-375 | The band is never narrower than configured with hysteresis, and only the adaptive mode widens it, up to the spread and the full-reprice threshold. |
| CycleGuards.BandGrowsWithSpread | src/arbitrage_bot/market_maker.py:348-375 | A wider spread never narrows the band. |
| CycleGuards.PartlyFilledBookIsRebuilt | src/arbitrage_bot/market_maker.py:464-538 | A book with a partly filled order is never adopted: the ladder is rebuilt. |
| CycleGuards.AdoptedExactlyWhen | src/arbitrage_bot/market_maker.py:464-538 | A book is adopted if and only if it has as many orders as the plan on each side and all are priced and unfilled. |
| OneOrderPerLevel.ReplacedAndRetainedPartition | src/arbitrage_bot/market_maker.py:1325-1378 | Cancelled and retained ids are disjoint, each cancelled once, and together are the open ids. |
| OneOrderPerLevel.PlacedCycleHasOneOrderPerLevel | src/arbitrage_bot/market_maker.py:644-694 | Every fully placed cycle ends with exactly one live order per side and level, even if the matching names wrong orders. |
| CancelEstimate.EstimateIsSound | src/arbitrage_bot/market_maker.py:378-429 | With distinct keys and unrounded prices the orders selected for cancellation never exceed the estimate. |
| CancelEstimate.EstimateIsExactExactlyWhen | src/arbitrage_bot/market_maker.py:378-429 | With a mapping and no forced rebuild the estimate is exact if and only if no remembered mid of zero hides a large move. |
| CancelEstimate.EstimateIsExact | src/arbitrage_bot/market_maker.py:378-429 | So it is exact whenever the remembered mid is missing or positive. |
| CancelEstimate.ZeroMidIsOverestimated | src/arbitrage_bot/market_maker.py:404-417 | A mid of zero makes it announce one cancellation for a cycle that selects none. |
| MarketMaking.BuildLadder | src/arbitrage_bot/market_making.py:88-186 | The nested loop builds the specified ladder; each failure occurs if and only if the configuration is bad, the book is unusable, or an active level lies 100% from mid and keeps its bid. |
| MarketMaking.SizingConservesBudget | src/arbitrage_bot/market_making.py:233-257 | Sizing sums exactly to the quote per level times the level count, for any level set. |
| MarketMaking.SizingIsMonotoneAndCoversMinimum | src/arbitrage_bot/market_making.py:233-257 | Linear sizing never decreases with level and keeps the minimum when the budget allows. |
| MarketMaking.SkewKeepsTotal | src/arbitrage_bot/market_making.py:189-230 | Buy and sell multipliers always add up to 2, lean against the deviation and are neutral exactly inside the band. |
| MarketMaking.SkewedLadderConservesBudget | src/arbitrage_bot/market_making.py:114-150 | When no order is dropped the two sides spend twice the level budget, whatever the skew. |
| MarketMaking.LadderKeysAreDistinct | src/arbitrage_bot/market_making.py:114-150 | A ladder over ascending levels never repeats a side and level. |
| MarketMaking.LadderStraddlesMid | src/arbitrage_bot/market_making.py:114-150 | With a band below 100% bids are positive and below mid, asks above it, and amount times price is the budget. |
| MarketMaking.UnroundedLadderIsSpaced | src/arbitrage_bot/market_making.py:114-150 | An unrounded ladder is strictly ordered and leaves two bands between levels: the hypothesis of the no-drift result. |
| MarketMaking.LadderHasZeroPriceExactlyWhen | src/arbitrage_bot/market_making.py:114-150 | A ladder holds a zero price if and only if an active level lies 100% from mid and keeps its bid. |
| MarketMaking.BuiltLadderIsSpaced | src/arbitrage_bot/market_making.py:88-150 | The built ladder has distinct keys, keeps its levels a step of mid apart, and so leaves two bands between them, whichever levels are active. |
| LadderShape.OutermostLevelIsBand | src/arbitrage_bot/market_making.py:110-120 | The outermost level lies exactly the price band from mid. |
| LadderShape.FlatLevelsAreEqual | src/arbitrage_bot/market_making.py:233-257 | A flat ladder gives every level the configured quote. |
| LadderShape.LinearLevelsGrowEvenly | src/arbitrage_bot/market_making.py:233-257 | A linear ladder grows by one amount from level to level, above the minimum order when the budget covers it. |
| LadderShape.LeanIsProportional | src/arbitrage_bot/market_making.py:189-230 | The lean is proportional to the deviation beyond the band, empties one side at the maximum and is mirrored below the target. |
| LadderShape.LevelOrdersAre | src/arbitrage_bot/market_making.py:120-150 | An order exists if and only if its side of the level budget covers the minimum, and spends exactly that side. |
| LadderShape.LadderLeansAgainstInventory | src/arbitrage_bot/market_making.py:114-230 | With inventory above target no level bids more than it offers, and below target none offers more than it bids. |
| FillAccounting.RefreshIsSafe | src/arbitrage_bot/auto_buy_sell_task.py:1354-1490 | One refresh keeps the fill monotone, at most a positive target, and at least the capped sum of distinct trades. |
| FillAccounting.RefreshIsExactExactlyWhen | src/arbitrage_bot/auto_buy_sell_task.py:1354-1490 | An exact account stays exact if and only if the target is reached or nothing is credited beyond distinct trades. |
| FillAccounting.RunIsSafe | src/arbitrage_bot/auto_buy_sell_task.py:1354-1490 | The same bounds after any run of placements and sliding windows. |
| FillAccounting.RunIsExact | src/arbitrage_bot/auto_buy_sell_task.py:1354-1490 | When nothing arrives late the fill is the capped sum of distinct tracked trades after any run. |
| FillAccounting.LateTradeIsCountedTwice | src/arbitrage_bot/auto_buy_sell_task.py:1438-1463 | A trade that arrives after its order was counted as final is counted twice. |
| FillAccounting.OneOrderIsCounted | src/arbitrage_bot/auto_buy_sell_task.py:1427-1489 | What one order reported without trades adds: its whole fill once it is closed or has nothing left, unless it is the first final order of a task with fills. |
| AutoBuySellTask.SumTrades | src/arbitrage_bot/auto_buy_sell_task.py:1397-1425 | The trade loop accumulates per-order fills, new totals and known ids. |
| AutoBuySellTask.SumOrders | src/arbitrage_bot/auto_buy_sell_task.py:1427-1463 | The order loop accumulates the largest reported fills, the excess of newly final orders and their ids. |
| AutoBuySellTask.RefreshAccount | src/arbitrage_bot/auto_buy_sell_task.py:1384-1489 | The whole refresh computes the specified account. |
| AutoBuySellTask.AutoBuySellTask.RefreshTaskActivity | src/arbitrage_bot/auto_buy_sell_task.py:1354-1490 | The fields after a refresh, including the reset of a task that never placed an order. |
| AutoBuySellTask.AutoBuySellTask.StopTask | src/arbitrage_bot/auto_buy_sell_task.py:612-706 | A stop request changes the task exactly as the step function says, also when it raises. |
| AutoBuySellTask.AutoBuySellTask.SetPaused | src/arbitrage_bot/auto_buy_sell_task.py:527-556 | Pause and resume raise exactly for a pending stop and for resuming a terminal task. |
| AutoBuySellTask.AutoBuySellTask.RetryPendingStop | src/arbitrage_bot/auto_buy_sell_task.py:1101-1174 | A retry releases the task only through its confirmation. |
| AutoBuySellTask.AutoBuySellTask.StopAtPriceLimit | src/arbitrage_bot/auto_buy_sell_task.py:1194-1302 | The stop-price branch rearms, waits or leaves a pending stop, as specified. |
| AutoBuySellTask.AutoBuySellTask.RunTaskCycle | src/arbitrage_bot/auto_buy_sell_task.py:919-1032 | One cycle under its exception handler is one step of the machine. |
| AutoBuySellTask.AutoBuySellTask.RunDue | src/arbitrage_bot/auto_buy_sell_task.py:795-838 | The service loop skips terminal, paused and early tasks and overwrites the status when the runtime is missing. |
| TaskMachine.PendingEndsExactlyWhen | src/arbitrage_bot/auto_buy_sell_task.py:211-235 | A step ends a pending stop if and only if it skips confirmation or a read after a cancel request shows none of the tracked ids. |
| TaskMachine.PendingForgetsOnlyConfirmed | src/arbitrage_bot/auto_buy_sell_task.py:1101-1174 | A pending stop forgets an order only when a read after a cancel request missed it. |
| TaskMachine.StateOkIsKept | src/arbitrage_bot/auto_buy_sell_task.py:919-1032 | A pending stop always has tracked orders. |
| TaskMachine.StoppedLeavesNothingOpen | src/arbitrage_bot/auto_buy_sell_task.py:612-706 | Only a stop request or a confirmed retry produces `stopped`, with no tracked order left when cancellation was asked for. |
| TaskMachine.StopReleasesOnlyConfirmedOrders | src/arbitrage_bot/auto_buy_sell_task.py:1101-1174 | Over any run, when a pending stop ends every order it tracked had been shown absent by a read after its cancellation was requested. |
| TaskMachine.UncancelledStopReleasesOpenOrders | src/arbitrage_bot/auto_buy_sell_task.py:665-706 | A stop that declines to cancel releases a pending stop with orders open. |
| StoppedTask.OnlySlicesPlace | src/arbitrage_bot/auto_buy_sell_task.py:919-1032 | A step that does not go on to a slice places no order. |
| StoppedTask.FinishedTaskRestsExactlyWhen | src/arbitrage_bot/auto_buy_sell_task.py:527-556 | A complete, stopped or too small task stays exactly as it is through a run if and only if nothing pauses it, and then runs no slice. |
| StoppedTask.EndedStopIsFinalExactlyWhen | src/arbitrage_bot/auto_buy_sell_task.py:1101-1174 | Once a pending stop has ended short of the target, no later run without a pause places an order if and only if a stop request or a logged retry ended it. |
| StoppedTask.ResumedTaskPlacesOrder | src/arbitrage_bot/auto_buy_sell_task.py:527-556 | Pausing and resuming a stopped task makes its next due cycle place an order. |
| StoppedTask.UnloggedStopPlacesOrder | src/arbitrage_bot/auto_buy_sell_task.py:1101-1174 | After a confirmed stop whose event could not be logged the next due cycle places an order. |
| StoppedTask.SliceEndsTaskExactlyWhen | src/arbitrage_bot/auto_buy_sell_task.py:1519-1531 | A slice ends the task if and only if it was logged and completed it or fell below the minimum order. |
| StoppedTask.CycleCompletesExactlyWhen | src/arbitrage_bot/auto_buy_sell_task.py:1562-1567 | A cycle completes the task if and only if the fills it read reach a target or its own slice says so. |
| StoppedTask.StopPriceActsOncePerStart | src/arbitrage_bot/auto_buy_sell_task.py:1194-1302 | The stop price cancels once per start: while the start price is awaited a further cycle changes only the status. |
| StoppedTask.StopPriceActsExactlyWhen | src/arbitrage_bot/auto_buy_sell_task.py:1194-1302 | When it acts it fails exactly on a raising cancel or an unlogged event, and waits for exactly the orders not shown absent. |
| StoppedTask.CoordinationRestartsExactlyWhen | src/arbitrage_bot/auto_buy_sell_task.py:558-610 | Enabling coordination restarts only a task the guard blocked before it placed or filled anything. |
| StoppedTask.UnresolvedOrdersOnlyRecover | src/arbitrage_bot/auto_buy_sell_task.py:1034-1092 | While earlier orders are unresolved a due cycle only marks the task as recovering. |
| TrackedOrders.ReadTracksExactly | src/arbitrage_bot/auto_buy_sell_task.py:1384-1388 | After a read the task tracks exactly those of its placed orders that the read lists as open. |
| TrackedOrders.PlacingStepSawNoOpenOrder | src/arbitrage_bot/auto_buy_sell_task.py:919-1032 | A step that places orders read the exchange, and the read listed none of the task's orders as open. |
| TrackedOrders.PlacingStepWasAllowed | src/arbitrage_bot/auto_buy_sell_task.py:919-1032 | Such a step was due, not paused, finished or stopping, with resolved orders, an open target, no stop price and the next slice due. |
| TrackedOrders.StepOwns | src/arbitrage_bot/auto_buy_sell_task.py:919-1032 | Every step keeps the tracked orders among the placed ones. |
| TrackedOrders.ReleasedOnlyBy | src/arbitrage_bot/auto_buy_sell_task.py:1304-1352 | A tracked order is released only after a read that does not show it, or when it expired and could not be read again. |
| TrackedOrders.StoppedOnlyAfterRelease | src/arbitrage_bot/auto_buy_sell_task.py:612-706 | Over any run, an order some cycle read as open was released so before a stop with cancellation reached `stopped`; without a time to live, after a read without it. |
| TrackedOrders.ExpiredOrderIsStoppedUnread | src/arbitrage_bot/auto_buy_sell_task.py:1337-1352 | An expired order whose cycle failed before its second read is dropped, and a stop with cancellation then ends without asking for it. |
| TaskAccounting.StepAccounts | src/arbitrage_bot/auto_buy_sell_task.py:919-1032 | One step changes the account exactly by the reads and placements it performs; stops, pauses and retries perform none. |
| TaskAccounting.TaskFillsAreAccounted | src/arbitrage_bot/auto_buy_sell_task.py:1354-1490 | Over any run of a fresh task its fills stay between the capped distinct trades and the target, and are exact when nothing arrived late. |
| OrderJournal.OrderIntentStore.Reserve | src/arbitrage_bot/order_reliability.py:126-202 | The answer and the row of a reservation. |
| OrderJournal.OrderIntentStore.FirstUncertain | src/arbitrage_bot/order_reliability.py:389-412 | Finds an uncertain intent of another id on the market exactly when there is one. |
| OrderJournal.GrantedAtMostOnceExactlyWhen | src/arbitrage_bot/order_reliability.py:136-202 | Over any run an id is granted at most once if and only if no create call meets a renewable or compacted row of that id. |
| OrderJournal.SentAtMostOnce | src/arbitrage_bot/exchanges.py:1633-1711 | Under that condition the exchange receives at most one create request per client id, whatever interleaves. |
| OrderJournal.RequestsWereGranted | src/arbitrage_bot/exchanges.py:1633-1686 | The exchange never receives more create requests for an id than the journal granted. |
| OrderJournal.RetryAfterWaitIsSentTwice | src/arbitrage_bot/order_reliability.py:158-171 | A create call with an unknown outcome is sent a second time once the recovery wait is over. |
| OrderJournal.GrantsAreSpaced | src/arbitrage_bot/order_reliability.py:158-171 | Two grants of an id are at least the recovery wait apart unless its absence was reconciled or its row compacted. |
| OrderJournal.SentIsJournaled | src/arbitrage_bot/order_reliability.py:126-202 | Every id whose request reached the exchange is on record or was compacted after its outcome. |
| OrderJournal.PendingStaysExactlyWhen | src/arbitrage_bot/order_reliability.py:463-497 | From any state, a pending intent stays pending, so every later recovery finds it, if and only if no event gives its outcome; crashes, retries and compactions never drop it. |
| OrderJournal.FinishedIsNotGrantedAgain | src/arbitrage_bot/order_reliability.py:145-171 | A settled or rejected id is not granted again, and needs no new permit, until another outcome is recorded for it or its row is compacted. |
| OrderJournal.UncertainIntentBlocksMarket | src/arbitrage_bot/exchanges.py:1622-1632 | While an intent stays uncertain no other id is reserved on its market by any later create call. |
| OrderJournal.CrashedReservationBlocksMarket | src/arbitrage_bot/order_reliability.py:398-403 | From 30 seconds after a grant whose outcome is never learned, every create call of another id on its market is refused, until an event settles or renews it. |
| OrderJournal.UnknownIntentBlocksMarket | src/arbitrage_bot/exchanges.py:1622-1632 | An intent of unknown outcome does so at once. |
| OrderJournal.YoungReservationsRefuseNothing | src/arbitrage_bot/order_reliability.py:389-412 | A new id is granted when every other intent on its market is settled, failed, absent or reserved for less than 30 seconds. |
| OrderJournal.CompactionRemovesExactly | src/arbitrage_bot/order_reliability.py:463-497 | Compaction removes exactly the rows that are not pending and are older than the cutoff or in the overflow. |
| OrderRecovery.SearchOrderByClientId | src/arbitrage_bot/exchanges.py:1480-1545 | An order is found exactly when an answering source shows it; otherwise every answering source is on record. |
| OrderRecovery.CreateOrderIdempotently | src/arbitrage_bot/exchanges.py:1599-1711 | One request exactly when granted; the row after every outcome; a result only for an order on record. |
| PendingIntents.PendingForMarket | src/arbitrage_bot/order_reliability.py:342-369 | The query lists the oldest pending intents of a market in order, and leaves one out only at the row limit. |
| OrderRecovery.ReclassifyRejections | src/arbitrage_bot/order_reliability.py:365-387 | Exactly the queried rows of unknown outcome whose stored error confirms a rejection become failed. |
| OrderRecovery.RecoverPendingOrderIntents | src/arbitrage_bot/exchanges.py:2482-2590 | Stored rejections are reclassified first; then every pending intent of the market, up to the row limit, is classified exactly once as found, absent or unresolved, and only judged rows change. |
| OrderRecovery.AbsenceIsEvidenced | src/arbitrage_bot/exchanges.py:2530-2560 | Absence is established if and only if it may be resolved, the minimum age has passed, the open orders and a second source answered and no answer shows the order. |
| OrderRecovery.ConfirmsExactlyWhen | src/arbitrage_bot/exchanges.py:2396-2466 | An attempt with any trouble before or in its first read is confirmed by its second read alone. |
| OrderRecovery.CancelOrder | src/arbitrage_bot/exchanges.py:2396-2466 | Cancellation succeeds at the first attempt that a read confirms, and only then is the journal told. |
| LedgerTables.SumFillDeltas | src/arbitrage_bot/asset_ledger.py:493-524 | The fill loop accumulates what the window's fills did to each currency. |
| LedgerTables.AssetLedger.RecordFills | src/arbitrage_bot/asset_ledger.py:672-763 | The fills and observations after a report, and the number of newly observed ones. |
| LedgerTables.AssetLedger.RecordBalance | src/arbitrage_bot/asset_ledger.py:384-560 | A readable changed payload is stored, and exactly the rows that do not add up and the unexplained currencies are reported. |
| LedgerTables.IdentityBreaksExactlyWhen | src/arbitrage_bot/asset_ledger.py:469-488 | A row is reported if and only if its total differs from free plus used by more than the tolerance. |
| AdjustedBalances.AdjustedRowsNeverBreakIdentity | src/arbitrage_bot/account_worker.py:145-181 | No row adjusted for open orders is ever reported by the ledger for not adding up. |
| LedgerTables.AssetLedger.RecordAccountSnapshot | src/arbitrage_bot/asset_ledger.py:1224-1265 | Fills are recorded before the balance is compared, at one observation time. |
| Reconciliation.RecordingTwiceIsOnce | src/arbitrage_bot/asset_ledger.py:680-749 | Reporting the same trades again records nothing. |
| Reconciliation.AddFillsExtends | src/arbitrage_bot/asset_ledger.py:680-749 | Recorded fills and first observations never change. |
| Reconciliation.StepKeepsInvariant | src/arbitrage_bot/asset_ledger.py:1224-1265 | Every event keeps headers true and observations no earlier than executions. |
| Reconciliation.DeltaIsFlowPlusUnobservedFills | src/arbitrage_bot/asset_ledger.py:489-550 | A delta is the non-fill flow plus the fills executed since the header minus those newly observed, with no assumption of completeness. |
| Reconciliation.DeltaIsNonFillFlow | src/arbitrage_bot/asset_ledger.py:489-550 | Against balances the exchange moves itself: when fills are observed in time the delta is exactly the non-fill flow since the last stored header, reported if and only if it exceeds tolerance. |
| Reconciliation.SettlingHasEffect | src/arbitrage_bot/asset_ledger.py:509-530 | The effect the ledger expects of a fill is what settling it does to the balances the exchange holds, per account and currency. |
| Reconciliation.ReportedExactlyWhen | src/arbitrage_bot/asset_ledger.py:405-550 | A currency is reported if and only if the snapshot is readable, changed and preceded by an observed fill, and the delta exceeds the tolerance. |
| Reconciliation.FillsAloneReportNothing | src/arbitrage_bot/asset_ledger.py:489-550 | When fills are all that moves the exchange's balances and each is observed in time, no snapshot of any run reports anything. |
| Reconciliation.SkippedSnapshotKeepsHeader | src/arbitrage_bot/asset_ledger.py:395-412 | A skipped or failed snapshot leaves the header, so the next comparison still covers it. |
| OrderBook.ComputeMaxBase | src/arbitrage_bot/orderbook.py:18-29 | The budget loop computes the specified base. |
| OrderBook.ComputeFill | src/arbitrage_bot/orderbook.py:32-60 | The fill loop computes the specified gross quote or refuses. |
| OrderBook.MaxBaseInvertsCost | src/arbitrage_bot/orderbook.py:18-29 | The base a budget buys costs exactly the budget, or the whole book. |
| OrderBook.BudgetIsNotExceeded | src/arbitrage_bot/orderbook.py:18-60 | Filling at most that base never costs more than the budget. |
| OrderBook.DepthIsFilled | src/arbitrage_bot/orderbook.py:32-60 | Any positive quantity within depth is filled. |
| OrderBook.CostsAgreeExactlyWhen | src/arbitrage_bot/orderbook.py:32-60 | A larger quantity never costs less, and costs the same exactly when the walk fills the same part of it. |
| CycleSizing.CycleStaysInBudget | src/arbitrage_bot/cross_exchange_rebalancer.py:168-222 | Any quantity up to the sized one is fillable and costs, fee included, at most the cycle quote. |
| CycleSizing.SaleStaysInBudget | src/arbitrage_bot/cross_exchange_rebalancer.py:168-218 | Selling the sized quantity brings in, after the fee, at most the cycle quote. |
| CycleSizing.SizedQuantityIsLargest | src/arbitrage_bot/cross_exchange_rebalancer.py:168-218 | The sized quantity spends the whole buy or sell budget or takes all that a book offers. |
| CycleSizing.SizedExactlyWhen | src/arbitrage_bot/cross_exchange_rebalancer.py:168-200 | A cycle is sized if and only if more than a negligible target is left, quote is allowed, the sale fee leaves something and both books trade. |
| Alignment.AlignQuantity | src/arbitrage_bot/cross_exchange_rebalancer.py:302-382 | The four-attempt loop computes the specified alignment or error. |
| Alignment.SuccessIsGreatestExactlyWhen | src/arbitrage_bot/cross_exchange_rebalancer.py:302-382 | For any lot roundings a success is the greatest common lot up to the request if and only if the smaller amount prepared last is a lot of the other venue. |
| Alignment.AlignmentIsGreatestFixedPoint | src/arbitrage_bot/cross_exchange_rebalancer.py:302-382 | On roundings separated up to the request every success is the greatest quantity both venues leave unchanged. |
| Alignment.AlignmentSucceedsExactlyWhen | src/arbitrage_bot/cross_exchange_rebalancer.py:318-382 | The four attempts succeed if and only if the checks they make pass and three roundings reach a positive common lot, which is the result. |
| Alignment.NestedLotsAlignByAttemptTwo | src/arbitrage_bot/cross_exchange_rebalancer.py:302-382 | When every lot of one venue is a lot of the other, success by attempt 2 if and only if the quantity is positive and its checks pass. |
| LotSteps.StepIsLotRounding | src/arbitrage_bot/cross_exchange_rebalancer.py:326-362 | Rounding down to a step is monotone, idempotent and never upward. |
| LotSteps.QuantumSeparates | src/arbitrage_bot/cross_exchange_rebalancer.py:357-362 | Steps that are multiples of a quantum above the request's tolerance meet the separation hypothesis. |
| LotSteps.LotStepsAlign | src/arbitrage_bot/cross_exchange_rebalancer.py:302-382 | For such steps: when the loop succeeds, and that it returns the greatest common lot. |
| LotSteps.DividingStepsAlignByAttemptTwo | src/arbitrage_bot/cross_exchange_rebalancer.py:302-382 | When one step is a multiple of the other, success by attempt 2 with the greatest common lot, exactly when the checks pass and the quantity is positive. |
| LotSteps.FourAttemptsMayNotSuffice | src/arbitrage_bot/cross_exchange_rebalancer.py:318-382 | Steps 5 and 7 exhaust the attempts on 69 although 35 suits both venues. |
| LotSteps.CloseStepsAreTakenAsEqual | src/arbitrage_bot/cross_exchange_rebalancer.py:357-362 | Steps closer than the tolerance are accepted although one venue would round the result away. |
| Alignment.NoFixedPointIsMissed | src/arbitrage_bot/cross_exchange_rebalancer.py:302-382 | The result is at least every quantity both venues leave unchanged; a request rounded to zero has none. |
| RebalanceLedger.ExecutionProgress | src/arbitrage_bot/cross_exchange_rebalancer.py:509-559 | The progress of an execution, zero in all counters when unbalanced. |
| RebalanceLedger.CreditFits | src/arbitrage_bot/cross_exchange_rebalancer.py:509-559 | Credits are nonnegative and the progress never exceeds what remains. |
| RebalanceLedger.ProceedsAreOfSales | src/arbitrage_bot/cross_exchange_rebalancer.py:509-560 | Only filled sales add proceeds, in whatever order the fills are listed. |
| RebalanceLedger.ProceedsFallBackOnAverage | src/arbitrage_bot/cross_exchange_rebalancer.py:509-560 | When sales report nothing although base matched, the matched base is valued at the average sale price. |
| RebalanceLedger.CycleHaltsExactlyWhen | src/arbitrage_bot/cross_exchange_rebalancer.py:744-774 | A cycle halts if and only if it was unbalanced, needs a person, or failed while errors halt. |
| RebalanceLedger.CompleteExactlyWhen | src/arbitrage_bot/cross_exchange_rebalancer.py:888-959 | A running rebalance is complete if and only if at most a negligible part of the target is left. |
| RebalanceLedger.AdvancedExactlyWhen | src/arbitrage_bot/cross_exchange_rebalancer.py:744-774 | A cycle reports an advance if and only if it added quote. |
| RebalanceLedger.ForeignFileStartsAfresh | src/arbitrage_bot/cross_exchange_rebalancer.py:819-844 | An unreadable file, another version or another route starts afresh. |
| RebalanceLedger.CompletedIsSumOfProgress | src/arbitrage_bot/cross_exchange_rebalancer.py:888-959 | Over any run with restarts the counters are the exact sums of balanced progress and completed plus remaining is the target. |
| RebalanceLedger.UnbalancedExecutionEndsRun | src/arbitrage_bot/cross_exchange_rebalancer.py:541-546 | In any run the first unbalanced execution is the last event that changes anything: counters keep their sums and the halt records the exposure. |
| RebalanceLedger.HaltIsPermanent | src/arbitrage_bot/cross_exchange_rebalancer.py:888-959 | No cycle or restart clears a halt or moves the counters afterwards. |
| RebalanceLedger.LoadAfterSave | src/arbitrage_bot/cross_exchange_rebalancer.py:819-886 | Save then load is the identity exactly for an unchanged route or a fresh runtime; it clears a halt exactly when the route changed. |
| CycleCredit.CreditIsSizedCost | src/arbitrage_bot/cross_exchange_rebalancer.py:280-299 | A balanced cycle is credited with the filled fraction of the sized quantity's cost, not the aligned one's. |
| CycleCredit.CreditIsSpentExactlyWhen | src/arbitrage_bot/cross_exchange_rebalancer.py:509-559 | The credit is what the fill cost if and only if nothing was filled or both quantities cost the same; it is never less. |
| CycleCredit.ReductionIsOvercredited | src/arbitrage_bot/cross_exchange_rebalancer.py:280-299 | Every fill after a reduction by more than the negligible rest is credited with more than it cost. |
| CycleCredit.CompletedIsBalancedSpendExactlyWhen | src/arbitrage_bot/cross_exchange_rebalancer.py:888-959 | Over any run the completed total is at least what its balanced cycles spent at the planned book, and equal to it if and only if none of them filled a reduced quantity. |
| CycleCredit.PurchasesExceedByAtMostOneCycle | src/arbitrage_bot/cross_exchange_rebalancer.py:541-546 | Over any run the purchases of all cycles, unbalanced ones included, exceed the completed total by at most one cycle budget, and by nothing while the run is not halted, up to 1e-12 of base a cycle. |
| CycleCredit.CompletedCoversPurchases | src/arbitrage_bot/cross_exchange_rebalancer.py:888-959 | When no executed cycle requires a hedge the completed total covers all purchases, up to that amount. |
| CycleCredit.CompletedIsPurchasedExactlyWhen | src/arbitrage_bot/cross_exchange_rebalancer.py:888-959 | When moreover no cycle buys more than it sells, it is at least all purchases, and equal to them if and only if no executed cycle filled a reduced quantity. |
| CycleCredit.UnsoldPurchaseIsNotCompleted | src/arbitrage_bot/cross_exchange_rebalancer.py:541-546 | A first cycle that buys 10 and sells nothing halts the run with nothing completed. |
| CycleCredit.TargetCompletesWithLessBought | src/arbitrage_bot/cross_exchange_rebalancer.py:888-959 | With lots of 10 and 15 per cycle a target of 30 is reported complete after buying 20. |
| EmergencyHedge.TryOnce | src/arbitrage_bot/emergency_hedge.py:203-356 | One attempt of the loop, branch by branch. |
| EmergencyHedge.ExecuteEmergencyHedge | src/arbitrage_bot/emergency_hedge.py:136-372 | Filled plus remaining is the imbalance, the quote used stays within the cap, and the attempts are those the answers lead to. |
| EmergencyHedge.AttemptsKeepBalance | src/arbitrage_bot/emergency_hedge.py:193-372 | The same for any number of attempts and adversarial fills. |
| EmergencyHedge.NothingFollowsUnknownOutcome | src/arbitrage_bot/emergency_hedge.py:349-356 | No attempt follows a submission whose outcome errored. |
| EmergencyHedge.AttemptsEndExactlyWhen | src/arbitrage_bot/emergency_hedge.py:193-372 | The loop gives up only when every allowed attempt was made, a negligible part is left, or the last attempt was blocked or has an unknown outcome. |
| EmergencyHedge.RequestsWereApproved | src/arbitrage_bot/emergency_hedge.py:247-300 | No request is sent without a book price and the risk gate's approval in the same attempt. |
| EmergencyHedge.LimitAllowsSlippage | src/arbitrage_bot/emergency_hedge.py:219-232 | A buy is limited by the slippage above the top of the book and a sale by the slippage below it, and fills use the cap at that limit. |
| EmergencyHedge.UnknownOutcomeStaysWithinRemaining | src/arbitrage_bot/emergency_hedge.py:227-232 | Even a wholly filled request of unknown outcome stays within what remained. |
| EmergencyHedge.UnknownOutcomeStaysWithinCap | src/arbitrage_bot/emergency_hedge.py:193-372 | At whichever attempt it happened, it also stays within what was left of the cap. |
| EmergencyHedge.DivisionFailsExactlyWhen | src/arbitrage_bot/emergency_hedge.py:216-232 | The division by a zero price fails exactly when a sale allows all of the price as slippage. |
| EmergencyHedge.DivisionFailureLosesNothing | src/arbitrage_bot/emergency_hedge.py:216-232 | That error can only strike the first attempt, so no recorded fill is lost. |
| EmergencyHedge.HedgeAndApply | src/arbitrage_bot/emergency_hedge.py:375-403 | Executing and applying leaves an imbalance of exactly the remaining base, whose sign never flips. |
| RelativeValue.RunRelativeValueBacktest | src/arbitrage_bot/backtesting.py:726-920 | The loop follows the specified bars and its settlement leaves the last equity point as it was. |
| RelativeValue.EquityIsRebuiltFromLedger | src/arbitrage_bot/backtesting.py:774-920 | Every equity point is initial cash plus closed and open profit minus all costs rebuilt from the trade ledger; trades come four to a round plus two. |
| RelativeValue.PnlIsLegsGain | src/arbitrage_bot/backtesting.py:711-724 | The profit the loop books is what an opposite pair of legs gains. |
| SpreadSignals.PositionFollowsSignals | src/arbitrage_bot/backtesting.py:800-860 | At every bar the position, or having none, is what entry, exit, holding limit and cash ask for; cheap spreads are held long and dear ones short. |
| SpreadSignals.ExitIsJustified | src/arbitrage_bot/backtesting.py:800-840 | A position ends or is exchanged if and only if the spread has reverted or the holding limit is reached. |
| SpreadSignals.LedgerIsFair | src/arbitrage_bot/backtesting.py:683-709 | Each pair trades the legs in opposite directions at prices no better than the bar's, and each round is closed later and in reverse. |
| PaperTrading.SpendQuote | src/arbitrage_bot/backtesting.py:279-300 | The buy walk through depth computes the specified fill. |
| PaperTrading.TradeIsSolvent | src/arbitrage_bot/backtesting.py:349-479 | With fee plus slippage up to 10000 bps no trade overdraws cash or base or trades more than asked. |
| PaperTrading.SaleOverdrawsExactlyWhen | src/arbitrage_bot/backtesting.py:454-479 | With slippage below 10000 bps a sale from an empty wallet overdraws it if and only if fee and slippage exceed 10000 bps. |
| PaperTrading.NotionalIsAmountAtPrice | src/arbitrage_bot/backtesting.py:349-479 | Every trade's notional is its amount at its price. |
| TradePrices.TradePricesAreAdverse | src/arbitrage_bot/backtesting.py:349-479 | A buy is never executed below the price asked and a sale never above it; without depth the difference is the slippage. |
| TradePrices.TradeMovesWallet | src/arbitrage_bot/backtesting.py:349-479 | A buy gains its amount and a sale gives it up; cash moves by notional, fee and slippage. |
| TradePrices.DepthIsEvenlySpaced | src/arbitrage_bot/backtesting.py:249-270 | Synthetic depth moves away from the reference by the same step at every level. |
| TradePrices.PlainBuySpendsAllItCan | src/arbitrage_bot/backtesting.py:425-436 | A buy spends what was asked, or all the cash when that falls short. |
| TradePrices.DepthTradesAreFilled | src/arbitrage_bot/backtesting.py:375-420 | A trade against depth is filled whole up to a negligible rest, or not at all. |
| PaperBacktest.RunGrid | src/arbitrage_bot/backtesting.py:482-542 | Each bar tries a buy when the price fell, and a sale otherwise, once at exactly the grid levels between the two prices, lower ones first. |
| PaperBacktest.GridBarFollowsPrice | src/arbitrage_bot/backtesting.py:499-505 | A bar buys only if the price fell and sells only if it rose, and trades nothing when no grid level lies on its way. |
| PaperBacktest.GridLevelsSpanTheGrid | src/arbitrage_bot/backtesting.py:492-498 | Grid levels run evenly from the lower to the upper price. |
| BacktestOrders.DefaultGridSpansPrices | src/arbitrage_bot/backtesting.py:492-498 | A grid without bounds runs from the lowest to the highest price of the series. |
| PaperBacktest.RunDca | src/arbitrage_bot/backtesting.py:545-615 | The DCA loop follows the specified triggers, sizes and intervals. |
| BacktestOrders.DcaBarOrdersExactlyWhen | src/arbitrage_bot/backtesting.py:560-600 | A bar orders if and only if the price is on the allowed side of the trigger, the interval has passed and an order is left, multiplying the quote per order placed. |
| BacktestOrders.DcaOrdersAreSpaced | src/arbitrage_bot/backtesting.py:560-600 | In any run two orders are at least the interval apart and on the allowed side of the trigger. |
| PaperBacktest.RunSlices | src/arbitrage_bot/backtesting.py:618-670 | The slice loop follows the specified slices. |
| BacktestOrders.SlicesFollowSchedule | src/arbitrage_bot/backtesting.py:618-670 | A slice run trades only at its scheduled bars, at most one share of the target, on its side. |
| BacktestOrders.TargetPrefersQuote | src/arbitrage_bot/backtesting.py:626-634 | The target is the configured quote, else the base at the first price, else the cash. |
| PaperBacktest.GridRunIsSound | src/arbitrage_bot/backtesting.py:482-542 | Every grid run is solvent at every bar and conserves cash and base. |
| PaperBacktest.DcaRunIsSound | src/arbitrage_bot/backtesting.py:545-615 | The same for DCA, with at most the maximum number of orders. |
| PaperBacktest.SliceRunIsSound | src/arbitrage_bot/backtesting.py:618-670 | The same for slices, which trade at most the target in at most the slice count. |
| PaperBacktest.DrawdownIsBestDrop | src/arbitrage_bot/backtesting.py:224-246 | The single-pass drawdown equals the best drop from any earlier equity, the start included. |
| PaperBacktest.MaxDrawdown | src/arbitrage_bot/backtesting.py:949 | The reported maximum is attained and bounds every point. |
| BacktestOrders.CurvesAreMarked | src/arbitrage_bot/backtesting.py:210-246 | All three equity curves mark the wallet at each bar's closing price. |
| SliceSchedule.BuildSchedule | src/arbitrage_bot/execution_algos.py:257-298 | The schedule loop with its early stop computes the specified slices. |
| SliceSchedule.SlicesNeverExceedTarget | src/arbitrage_bot/execution_algos.py:257-298 | Slices are positive and together with the rest make up the target. |
| SliceSchedule.SmallSliceExhaustsTarget | src/arbitrage_bot/execution_algos.py:188-193 | A slice below the minimum is the last and leaves nothing. |
| SliceSchedule.SlicesRespectMaximum | src/arbitrage_bot/execution_algos.py:188-193 | Slices respect a maximum that is at least the minimum. |
| SliceSchedule.ScheduleBreaksMaximumExactlyWhen | src/arbitrage_bot/execution_algos.py:188-298 | Some slice of a schedule exceeds the maximum if and only if the minimum and the target do. |
| SliceSchedule.EvenScheduleIsExact | src/arbitrage_bot/execution_algos.py:179-298 | TWAP and VWAP without a maximum sum exactly to the target even when the minimum enlarges early slices. |
| SliceSchedule.WeightsAreUShaped | src/arbitrage_bot/execution_algos.py:179-187 | TWAP weighs slices alike; VWAP weighs the ends 1.75, an exact middle 0.75 and the rest symmetrically in between. |
| SliceSchedule.TwapSlicesAreEqual | src/arbitrage_bot/execution_algos.py:257-298 | An unbounded TWAP plan cuts the target into equal slices. |
| SliceSchedule.SlicesAreDueInOrder | src/arbitrage_bot/execution_algos.py:257-298 | Slices are due an interval apart, never after the duration, and amount times price is the notional. |
| SliceSchedule.SlicesRespectParticipation | src/arbitrage_bot/execution_algos.py:257-298 | Without a minimum a POV slice takes at most its share of the expected volume. |
| SliceSchedule.VolumeFollowsTarget | src/arbitrage_bot/execution_algos.py:257-298 | TWAP and VWAP expect the same share of the volume for a slice as it takes of the target. |
| RequestPacer.AsyncRequestPacer.Wait | src/arbitrage_bot/exchange_rate_limit.py:54-60 | The delay and the next allowed time. |
| RequestPacer.AsyncRequestPacer.Defer | src/arbitrage_bot/exchange_rate_limit.py:62-67 | A defer only moves the next allowed time forward. |
| RequestPacer.ReleasesAreSpaced | src/arbitrage_bot/exchange_rate_limit.py:40-67 | Any interleaving of waits and defers keeps releases an interval apart. |
| RequestPacer.WindowHoldsFew | src/arbitrage_bot/exchange_rate_limit.py:40-67 | Every closed window of length W holds at most floor(W / interval) + 1 releases. |
| RequestPacer.GateLimitIsKept | src/arbitrage_bot/exchange_rate_limit.py:11-14 | Never more than three orders in ten seconds at 3.5 seconds. |
| RequestPacer.ThreeFitTheWindow | src/arbitrage_bot/exchange_rate_limit.py:11-14 | The bound is attained. |
| RequestPacer.CooldownIsHonoured | src/arbitrage_bot/exchange_rate_limit.py:62-67 | No release after a completed defer comes before its time plus its cooldown. |
| Reserves.SumReserves | src/arbitrage_bot/account_worker.py:122-138 | The order loop sums what every currency has reserved. |
| Reserves.RemainingIsUnfilled | src/arbitrage_bot/account_worker.py:126-131 | What is left of an order and what is filled make up its amount, whether or not it is reported. |
| Reserves.ReservesAreWhatOrdersPay | src/arbitrage_bot/account_worker.py:122-138 | The reserve of a currency is exactly what filling every open order would take out of it. |
| Reserves.FreeSurvivesEveryFill | src/arbitrage_bot/account_worker.py:145-181 | So after the adjustment every open order can fill without touching what is shown as free. |
| Reserves.ApplyOpenOrderReserves | src/arbitrage_bot/account_worker.py:114-191 | The adjusted rows, for every list of open orders; an unchecked balance is left alone. |
| Reserves.MissingTotalIsSumOfParts | src/arbitrage_bot/account_worker.py:152-154 | A row without a total is adjusted as if its total were free plus used. |
| Reserves.EveryReserveIsCovered | src/arbitrage_bot/account_worker.py:145-181 | Every reserved currency is listed, free plus used is its total, and used covers its reserve. |
| Reserves.AdjustingTwiceIsOnceExactlyWhen | src/arbitrage_bot/account_worker.py:155-169 | Adjusting twice is once if and only if no negative free amount hides the reserve. |
| Reserves.AccountAdjustmentIsIdempotent | src/arbitrage_bot/account_worker.py:114-191 | For nonnegative raw balances the account adjustment is idempotent, for reserves of any size. |

## Left out

- MarketMakerSafety.NoDrift: prepared prices must leave two bands between neighbouring levels. `LadderRuns.BuiltLaddersNeverDrift` discharges it for built ladders when two bands and two ticks of rounding fit between levels; a coarser tick can break it.
- MarketMakerSafety.MatchingStaysRight: no foreign orders appear between cycles and the listing shows exactly the open orders; partly filled orders keep their price.
- CycleCredit.PurchasesExceedByAtMostOneCycle: purchases are priced at the planned book; fills are nonnegative and the buy leg fills at most its order.
- CancelEstimate.EstimateIsSound: unrounded prices are needed, because the estimate compares planned prices and the cycle prepared ones.
- OrderPlacement.PlacePlan: a batch that does not raise creates all its orders; those the venue then rejects or fills are losses of the next event.
- MarketMakerLoop.Loop.RunCycle: a failed creation makes the surrounding loop forget its plan (`src/arbitrage_bot/web/background/market_maker.py:1297-1311`); its other reasons to force a rebuild are one boolean input.
- AutoBuySellTask.AutoBuySellTask.RunTaskCycle: open ids are a set, and cycle counts, error texts, due times and fill timestamps are not kept; each service call and cycle is one atomic step.
- TaskMachine.StopReleasesOnlyConfirmedOrders: assumes the runtime available and no stop that declines to cancel, the two releases named above.
- FillAccounting.RunIsExact: needs non-empty unique trade ids, an order's trades in the window when it is first final, and reported fills covered by observed trades; without them only the bounds of `FillAccounting.RunIsSafe` hold.
- OrderJournal.OrderIntentStore.Compact: the overflow that the row limit removes is an arbitrary set of ids.
- OrderJournal.SentAtMostOnce: the exchange's own deduplication by client id is not assumed.
- OrderRecovery.RecoverPendingOrderIntents: the loop runs without interleaving here; interleaved outcomes are steps of `OrderJournal`. Which error texts confirm a rejection is an input.
- Reconciliation.DeltaIsNonFillFlow: observation times strictly increase, so the latest header is the last one stored; reported trades repeat executed ones with their true cost and fee.
- LedgerTables.AssetLedger.RecordBalance: event rows and JSON text are not modelled; content keys are injective.
- Alignment.AlignmentIsGreatestFixedPoint: needs roundings that are equal or further apart than the tolerance up to the request; `Alignment.SuccessIsGreatestExactlyWhen` needs neither. Each venue's rounding and the limit and depth checks are functions of the amount alone.
- RebalanceLedger.CompletedIsSumOfProgress: one configuration for the whole run; the guards before an execution only decide that nothing is executed.
- EmergencyHedge.ExecuteEmergencyHedge: the largest fill over all reads of an order is one adversarial number; a division error is a status instead of an exception.
- RelativeValue.RunRelativeValueBacktest: z-scores and the logarithmic spread are opaque inputs.
- PaperBacktest.DrawdownIsBestDrop: needs solvent runs, which hold while fee plus slippage is at most 10000 bps; the code does not check that bound.
- RequestPacer.AsyncRequestPacer.Wait: the clock is monotone and sleeping takes at least the requested time.
- Floating point, NaN and text parsing: inputs are numbers or missing values.
- Malformed rows of plans the bot wrote itself.
- Order rows, order snapshots, duplicate-order diffs and pruning of the asset ledger are not modelled.
- Return, volatility and turnover metrics of the backtests.
- Network clients, configuration, alerts, web routes, grid and DCA planning, and scanners are not modelled.
