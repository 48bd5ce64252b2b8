# Verified model of the trading back end

This project models the accounting and allocation core of the automated trading back end in Dafny and
proves what its figures, tables and loops keep to. The parts are:

| files | what they model |
|---|---|
| `FifoLots`, `FillLedger`, `LedgerReading`, `LedgerConservation`, `LedgerDecomposition`, `LedgerSplitting` | the FIFO ledger that turns exchange fills into realised and unrealised PnL |
| `SlotTables`, `SlotRows`, `SlotReconcile`, `SlotCoupling` | the tables of position slots, order reservations and live positions, and the database steps on them |
| `CapitalAllocator`, `AllocatorDecisions`, `AllocatorLaws` | one allocator run: ranked candidates spend a snapshot budget on slots |
| `OrderLog`, `OrderRows`, `Leases` | the live order log with its idempotency claims, the runtime lock and the scheduler task lock |
| `Backtest`, `BacktestOrders` | the backtest loop, its account and its drawdown |
| `PositionLoop`, `PositionReading` | the controlled position loop and the sub-runs it merges |
| `ClientOrderIds`, `OrderIdReading` | the per-run order counter and the 36-character client order id |
| `OpenOrderAudit`, `OpenOrderReading` | the pairing of exchange and database open orders, and the preflight blockers |
| `Basics`, `KeySort`, `RealSums` | shared tools: small types, a stable sort by key, sums over sets of markets |

`dafny verify dfyconfig.toml` checks everything.

## How the model is built

Code that changes things step by step stays imperative: the fill replay, the SELL loop, the closing loop over
the markets, the backtest, the candidate loop, the scan, hold and position loops are methods with loops; the
tables, the locks, the order log, the loop report and the order counter are classes whose methods reassign
their fields. Each such method is proved equal to a function of its inputs or of the old state, and the laws
are proved about that function for all inputs and, where there is a state, over all runs. A second set of laws,
in `LedgerReading`, `SlotRows`, `AllocatorDecisions`, `OrderRows`, `BacktestOrders`, `PositionReading`,
`OrderIdReading` and `OpenOrderReading`, says what each operation writes and when it refuses in the columns,
constants and texts themselves, without the functions the methods are built from.

- Money and quantities are `real`, so sums and quotients are exact. The ledger's cut-off of 1e-12 is the
  constant `DUST`. Times are whole numbers.
- One call into the database is one atomic step on tables held as sequences or maps of records. The one place
  where the code reads a row in one transaction and writes it in another, the update of the order log, is
  modelled with an arbitrary row read earlier.
- Replies of the exchange, the clock, random characters, strategy signals and the checks that read other
  services are parameters, and the laws hold for every value of them.
- A NULL text is the empty string and a NULL id is 0.

## What the proofs say about the code

The ledger. A market's queue is at all times what lies beyond a pointer into the market's bought quantity, and
a SELL is charged, lot by lot, the length of the overlap of its own interval with the lot's interval, at the
lot's unit cost and unit fee. Dust is part of that statement, not excluded: a dropped residual is the short
interval from the end of the SELL to the end of the lot. Bought = matched + open + dropped follows for quantity,
cost and buy fee, with a dropped quantity of at most 1e-12 per SELL.

Points where the code does less than one might expect. Each comes with an input on which it fails and with the
exact condition under which it holds, for all inputs:

- Splitting a fill is not invisible when a SELL then stops just in front of a place where the unsplit fill had
  none. `SplittingIsInvisibleExactlyWhenClear` has the condition for a whole replay, in terms of the fills in
  front of each SELL; for a SELL it is that the first part stops clean, for a BUY that no later SELL of the
  market stops within the dust threshold in front of the cut. `DustBreaksSplitting` gives the difference in
  gross PnL.
- The replacement of a reserved entry only closes reservations still in status RESERVED. If the old one has
  been submitted (`SubmittedEntryBreaksCoupling`), or the slot names no candidate, the slot ends with two live
  reservations: `ReplaceKeepsCouplingExactlyWhenHeld` for one step, `RunCouplesExactlyWhenHeld` for an allocator run.
- A finalised entry puts one position into two slots exactly when another slot already shows it
  (`FinalizeInjectiveExactlyWhen`), which is the case whenever a reconciliation has placed the position while
  its reserved slot was still backed (`FinalizeAfterReconcileDuplicates`).
- A replacement is sized from the exposure left at the start of the run, not from what the run has left of it.
  `ReplacementOverspends` is a run with a budget of 90 that approves 180 net.
  `NetWithinBudgetExactlyWhenFitting` says when the net amount stays within the budget, by the state in front
  of each visit, and `OneEntryStaysWithinBudget` that a limit of one new entry per run is enough.
- With a minimum order of zero, an order of nothing is accepted even when the exposure is past its cap
  (`ZeroMinimumAcceptsPastTheCap`). `CapHoldsExactlyWhen`: after a run without replacement that accepted
  something, cap and reserve hold exactly when the minimum order is positive or the snapshot was within both.
- The check for status events looks for `-submitted-`, the query for canonical rows leaves out every id
  containing `-submitted`, in any case. A request between the two can be logged with a uuid that is taken:
  `UnseenRowsCanShareAUuid`, `SuchARequestExists`. The query is followed here.
  `InsertKeepsOrdersExactlyWhenSeen` and `OrdersStayUniqueExactlyWhen` say when the uuids of all orders stay
  distinct, for one insert and over every interleaving.
- An update that read its row earlier can bring back a uuid that another row has been given in the meantime
  (`StaleWriteCanRepeatAUuid` is such a run). `StaleUpdateKeepsUuidsExactlyWhen` and
  `AlwaysUniqueExactlyWhenSafe` have the condition.
- The scheduler lock compares no owner. A newcomer with a shorter ttl takes a running lease over
  (`TakenOverExactlyWhenOwnTtlPassed`), and a finish by another process while a lease runs admits the next
  caller (`ForeignFinishBreaksTheLease`, `FinishIsSafeExactlyWhenOwn`).
- The 36-character limit cuts the order number of long symbols. `SharedExactlyWhenCut` says for which numbers
  some other number of the run has the same id: symbol and number (at least four digits) together longer than 20 characters, or 20
  characters and a number of at least 1000.
- In a position run the SELL asks for the BUY's executed volume rounded down to eight decimals, not for the
  volume the BUY asked for; `VolumesCanDiffer` is a passing run with 1.0 bought and 0.5 sold. The two are equal
  exactly when the BUY executed at least the requested volume and less than 0.00000001 more: `TradeLaws` for
  one run, `LoopSellsAsRequestedExactlyWhen` for a whole loop.

## Model

| member | source | states |
|---|---|---|
| FifoLots.ConsumeLots | app/exchange_fills_ledger.py:229-252 | the SELL loop over the queue ends and yields the queue, unsold rest, cost basis, buy fee and matches of the consumption function; each round exhausts the sell or pops the front lot |
| FifoLots.ConsumeQuantities | app/exchange_fills_ledger.py:232-252 | a SELL of r matches min(r, open) and leaves exactly what lies beyond that point, moved to the lot's end when at most 1e-12 of the lot would remain; the dropped quantity is that move |
| FifoLots.ConsumeCharges | app/exchange_fills_ledger.py:235-249 | cost basis and buy fee of a SELL are the cumulative cost of the matched units, those of the dropped residual the cumulative cost of the move |
| FifoLots.OverlapIsDifference | app/exchange_fills_ledger.py:232-252 | the sum over lots of overlap length times unit cost is the difference of two cumulative costs |
| FifoLots.DropTwice | app/exchange_fills_ledger.py:247-252 | consuming in two steps leaves the same lots as consuming the sum |
| FifoLots.SellMovesPointer | app/exchange_fills_ledger.py:232-252 | a SELL on the rest of a lot list moves the pointer into the whole list by what it sold, snapped over dust |
| FifoLots.SellChargedByOverlap | app/exchange_fills_ledger.py:235-249 | the charge of a SELL on the rest of a list, read off the whole list as an overlap sum |
| FillLedger.SumQueue | app/exchange_fills_ledger.py:286-287 | quantity and cost of a queue are the sums over its lots |
| FillLedger.SellRow | app/exchange_fills_ledger.py:227-277 | one SELL row: remaining queue, trade record and unpaired value, including sells beyond the open quantity |
| FillLedger.ReplayFills | app/exchange_fills_ledger.py:189-279 | the replay yields the queues, totals and trades of the run of the rows: non-positive quantities and unknown sides change nothing, non-KRW fees are kept apart |
| FillLedger.ValueMarket | app/exchange_fills_ledger.py:286-292 | value, unrealised PnL and estimated exit fee of one market |
| FillLedger.ValueOpenLots | app/exchange_fills_ledger.py:280-296 | the closing loop gives the sums over all markets, whatever order it visits them in |
| FillLedger.SumTradeFees | app/exchange_fills_ledger.py:312 | the realised fee is the sum of buy and sell fees over the trades |
| FillLedger.ComputeRealizedPnl | app/exchange_fills_ledger.py:173-350 | the whole computation yields the report of the sorted rows |
| FillLedger.QueueIsResidual | app/exchange_fills_ledger.py:189-279 | after any fills each market's queue is what lies beyond the pointer into that market's bought lots |
| FillLedger.SellChargesOverlaps | app/exchange_fills_ledger.py:227-262 | every SELL is charged the overlaps of its interval with the lots bought so far, cost and fee alike; the dropped part is the following interval of at most the dust threshold |
| FillLedger.LaterLotsDoNotOverlap | app/exchange_fills_ledger.py:214-252 | lots bought later never share in the charge of an earlier SELL |
| FillLedger.PointerIsUsedUp | app/exchange_fills_ledger.py:189-279 | the pointer is the quantity the market's SELLs have matched plus the dust they dropped |
| FillLedger.LedgerChargesOverlaps | app/exchange_fills_ledger.py:189-279 | the j-th row of a ledger, a SELL, is charged its overlap with all BUY lots of the ledger, for runs with dust and with oversized sells too |
| LedgerConservation.FillConserves | app/exchange_fills_ledger.py:214-252 | one fill only moves quantity, cost and fee between queue, matched and dropped |
| LedgerConservation.Conservation | app/exchange_fills_ledger.py:189-279 | over a whole ledger bought = matched + open + dropped for quantity, cost and buy fee, with 0 <= dropped quantity <= 1e-12 per SELL |
| LedgerConservation.RealizedFeeIsMatched | app/exchange_fills_ledger.py:256-277 | the realised fee is the buy fee of the matched lots plus every sell fee |
| LedgerConservation.TradesAddUp | app/exchange_fills_ledger.py:258-277 | one trade per SELL; trade gross adds up to the gross and trade net to gross less fees |
| LedgerConservation.TotalTelescopes | app/exchange_fills_ledger.py:312-337 | total PnL = sells - buys + open market value + dropped cost - buy fees no longer open - sell fees - exit fee |
| LedgerConservation.DroppedWeightBound | app/exchange_fills_ledger.py:247-252 | if no BUY cost more than a cap per unit, the dropped cost is at most the cap times the dropped quantity; likewise for fees |
| LedgerDecomposition.RunSplits | app/exchange_fills_ledger.py:175-279 | a split of the rows that keeps markets whole splits queues and totals |
| LedgerDecomposition.ReportSplits | app/exchange_fills_ledger.py:189-337 | gross, fees, net, open cost, open quantity, unrealised and total PnL of the rows are the sums over the two sides of such a split |
| LedgerDecomposition.LedgerDecomposes | app/exchange_fills_ledger.py:903-945 | any grouping by a key that each market determines sums to the whole, for each of those figures |
| LedgerDecomposition.LedgerIsSumOfMarkets | app/exchange_fills_ledger.py:175-311 | every figure is the sum of running each market's rows alone |
| LedgerDecomposition.ArrivalOrderIrrelevant | app/exchange_fills_ledger.py:189 | any permutation of rows with distinct (executed time, id) gives the same report |
| LedgerDecomposition.GroupBySymbol | app/exchange_fills_ledger.py:909-916 | the grouping loop keeps, for each symbol, exactly its rows in their order |
| LedgerDecomposition.GroupedPnl | app/exchange_fills_ledger.py:903-945 | the symbol table holds for each symbol the report of that symbol's rows at the default fee rate |
| LedgerDecomposition.SymbolTableSumsToWhole | app/exchange_fills_ledger.py:903-945 | when the market determines the symbol, the symbol table sums to the report of all rows |
| LedgerSplitting.CleanSellTwice | app/exchange_fills_ledger.py:229-252 | two sells in a row without dust are one sell of their sum |
| LedgerSplitting.SplitLotKeepsShape | app/exchange_fills_ledger.py:214-218 | a lot and its two proportional parts are the same cost curve |
| LedgerSplitting.NoDustExactlyWhenClean | app/exchange_fills_ledger.py:251-252 | a ledger drops no dust if and only if every SELL, placed by the fills in front of it, stops clear of the end of a lot |
| LedgerSplitting.SplitSellExactlyWhenClean | app/exchange_fills_ledger.py:229-262 | a SELL that stops clean accounts like its two parts if and only if the first part stops clean; the second part is then clean and the queues are equal |
| LedgerSplitting.SnapAtCut | app/exchange_fills_ledger.py:247-252 | cutting a lot in two adds exactly one stretch where a SELL would drop dust, the threshold in front of the cut |
| LedgerSplitting.SplittingIsInvisibleExactlyWhenClear | app/exchange_fills_ledger.py:189-279 | in a replay without dust, replacing a fill by two consecutive proportional parts leaves all money totals and every queue's cost curve unchanged if and only if the parts are clear of the cut, and that is also when they drop no dust |
| LedgerSplitting.SplittingKeepsTheReport | app/exchange_fills_ledger.py:189-337 | read off as figures of the report, for parts with ids and times of their own |
| LedgerSplitting.DustBreaksSplitting | app/exchange_fills_ledger.py:251-252 | selling one lot whole in two parts, with at most the dust threshold left for the second, loses that rest; the gross PnL differs by its cost |
| LedgerReading.SortIsExecutionOrder | app/exchange_fills_ledger.py:189 | sorting the rows gives the one arrangement in order of execution time and then id in which rows equal in both stay as they came |
| LedgerReading.ReportIsReplayInOrder | app/exchange_fills_ledger.py:189-350 | every figure of the report is that of replaying this arrangement of the rows, whatever order they came in: a fill executed earlier is replayed earlier, and only among equal times the smaller id |
| LedgerReading.DistinctRowsKeepTies | app/exchange_fills_ledger.py:189 | rows with distinct (time, id): any permutation in strict order of time and then id is that arrangement |
| LedgerReading.RunTallySums | app/exchange_fills_ledger.py:202-277 | bought and sold values and quantities, fees by side, fees in other currencies and the counts are sums over the rows of positive quantity |
| LedgerReading.ReportTotalsAreSums | app/exchange_fills_ledger.py:312-350 | the same for the figures of the report, over the rows as they came |
| LedgerReading.SellIsRecorded | app/exchange_fills_ledger.py:227-277 | the j-th row, a SELL, adds one trade with its overlaps as basis and buy fee, gross = value - basis, net = gross - both fees, and counts the share of its value that found no lot, unless that rest is at most 1e-12 |
| LedgerReading.OthersAreNotRecorded | app/exchange_fills_ledger.py:205-277 | a row that is no SELL of a positive quantity adds no trade and no gross |
| LedgerReading.MatchesRead | app/exchange_fills_ledger.py:232-252 | the k-th match of a SELL is made with the k-th lot, at that lot's own share of cost and fee; only dust is left of a lot before the next one is touched |
| LedgerReading.GroupNameReads | app/exchange_fills_ledger.py:910-914 | a row is grouped under its symbol, without one under what follows the last dash of its market, without either under "unknown" |
| SlotTables.SlotDb.constructor | app/database.py:5178-5200 | the tables start empty |
| SlotTables.SlotDb.EnsureSlots | app/database.py:5178-5200 | exactly the missing slot numbers 1 to max(1, n) are added, empty |
| SlotTables.SlotDb.ExpireReservations | app/database.py:5207-5218 | live and pending reservations past their expiry become EXPIRED, all others stay |
| SlotTables.SlotDb.ReleaseRows | app/database.py:5219-5291 | RESERVED slots without a live unexpired reservation and slots of positions no longer active are cleared, all others stay |
| SlotTables.SlotDb.PlacePositions | app/database.py:5292-5352 | each position in turn refreshes the slot that holds it or takes the lowest empty number |
| SlotTables.SlotDb.ReconcilePositionSlots | app/database.py:5203-5362 | the whole reconciliation as one step on the tables |
| SlotTables.SlotDb.ReservePositionSlot | app/database.py:5369-5411 | the slot of that id becomes RESERVED for the entry, all others stay |
| SlotTables.SlotDb.CreateOrderReservation | app/database.py:5414-5439 | one reservation is appended under a fresh id |
| SlotTables.SlotDb.UpdateOrderReservationStatus | app/database.py:5458-5485 | exactly the reservations selected by previous status, candidate and market change status, and their number is returned |
| SlotTables.SlotDb.FinalizeEntryLifecycle | app/database.py:5511-5646 | the row chosen by session, then by position, then by holder shows the position, and exactly the matching live reservations are consumed; refused for unknown or inactive positions |
| SlotTables.FirstByRank | app/database.py:5540-5582 | the row picked matches the query and no matching row has a smaller rank; none only if no row matches |
| SlotRows.ReconciledRow | app/database.py:5207-5352 | every row after a reconciliation shows an active position column by column, or was left alone, or emptied, exactly as its status and the live unexpired reservations behind it say |
| SlotRows.PositionsAreShown | app/database.py:5292-5352 | a slot with an active position shows its status, market, candidate, session, opening time, value = price x volume, committed = entry amount or value, nothing reserved, and its unrealised and realised PnL; a position without a slot finds no EMPTY number up to the maximum |
| SlotRows.ReconciledNewRow | app/database.py:5178-5200 | a row a reconciliation adds has a new id and a number up to the maximum, and is blank or shows a position |
| SlotRows.ReconciledNumbers | app/database.py:5178-5200 | afterwards every number from 1 to max(1, maximum) has a row |
| SlotRows.LowestNumbersFirst | app/database.py:5300-5312 | positions take the lowest EMPTY numbers |
| SlotRows.ExpireReads | app/database.py:5207-5218 | each reservation becomes EXPIRED exactly if it is pending or live and its expiry has come, and keeps its other columns |
| SlotRows.ReserveReads | app/database.py:5369-5439 | every column of the reserved row and of the new reservation; all other rows stay |
| SlotRows.UpdateReads | app/database.py:5458-5485 | each reservation changes status exactly if its status, candidate and market are asked for, and keeps its other columns |
| SlotRows.UpdateCounts | app/database.py:5458-5485 | the number returned is that of these rows |
| SlotRows.ReplaceReads | app/capital_allocator.py:231-283 | a replacement closes exactly the held reservations of the old candidate in the market, none if the slot names no candidate, and writes the new row and reservation column by column |
| SlotRows.EntryChoiceReads | app/database.py:5540-5582 | the row chosen: by market, candidate and session, else free or its own by market and candidate, RESERVED before ENTERING before OPEN, else the first that holds the position |
| SlotRows.FinalizeReads | app/database.py:5511-5646 | every column the chosen row then shows, missing prices and times filled in, and exactly which reservations are consumed |
| SlotRows.FinalizableExactlyWhen | app/database.py:5520-5527 | positions in one of five statuses can be finalised |
| SlotReconcile.ReconcileKeepsWellFormed | app/database.py:5203-5362 | ids and slot numbers stay unique, empty rows stay blank, no position sits in two slots |
| SlotReconcile.ReconcileKeepsPlaced | app/database.py:5251-5352 | a slot that shows an active position keeps it |
| SlotReconcile.ReconcileIsMaximal | app/database.py:5251-5352 | afterwards every active position has a slot with its own figures, or no slot up to the maximum is empty |
| SlotReconcile.ReconcileServesInOrder | app/database.py:5251-5352 | a position left without a slot is never earlier in (opened, id) order than one that got a new slot |
| SlotReconcile.SkippedAreLatest | app/database.py:5292-5352 | in a placing pass whoever finds no slot comes after everyone who was given one |
| SlotReconcile.ReconcileIsIdempotent | app/database.py:5203-5362 | reconciling again at the same time changes nothing |
| SlotCoupling.CoupledSumsAgree | app/database.py:5369-5439 | in coupled tables the sum of live reservation amounts is the sum of reserved money over RESERVED slots |
| SlotCoupling.CoupledIsOneToOne | app/database.py:5369-5439 | each RESERVED slot has exactly one live reservation, with the same market, candidate and amount |
| SlotCoupling.ReconcileCouples | app/database.py:5206-5362 | a reconciliation keeps the links and leaves every RESERVED slot backed, whatever expired before |
| SlotCoupling.ReserveKeeps | app/capital_allocator.py:510-535 | creating a reservation and reserving an EMPTY slot for a market of its own keeps the coupling |
| SlotCoupling.ReplaceKeeps | app/capital_allocator.py:223-300 | replacing an entry that is still held keeps the coupling |
| SlotCoupling.ReplaceKeepsCouplingExactlyWhenHeld | app/capital_allocator.py:236-283 | a replacement keeps the coupling if and only if the slot names a candidate and its live reservations are still RESERVED |
| SlotCoupling.SubmittedEntryBreaksCoupling | app/capital_allocator.py:236-242 | one slot reserved by a submitted entry: replacing it leaves two live reservations on the slot |
| SlotCoupling.SetStatusKeeps | app/database.py:5458-5485 | a status update that revives nothing keeps the links, and keeps the coupling if the new status is live |
| SlotCoupling.FinalizeInjectiveExactlyWhen | app/database.py:5540-5626 | after a finalised entry positions are in one slot each if and only if no other slot already showed the position |
| SlotCoupling.FinalizeAfterReconcileDuplicates | app/database.py:5540-5572 | if a reconciliation has placed a position whose RESERVED slot is still backed, finalising picks that slot and the position is in two |
| SlotCoupling.FinalizeKeeps | app/database.py:5511-5646 | finalising consumes exactly the reservation that backs the chosen slot, so the coupling is kept |
| SlotCoupling.RunsStayCoupled | app/database.py:5203-5646 | over every run from empty tables of reserve, replace, update, reconcile and finalise the tables stay linked; they are coupled, with equal sums, after any reconciliation and as long as no outside update closed a reservation |
| CapitalAllocator.FindSameMarketSlot | app/capital_allocator.py:202-220 | the first slot of the candidate's market decides: replaceable, refused with its reason, or no such slot |
| CapitalAllocator.SameMarket | app/capital_allocator.py:207-220 | a replaceable slot is RESERVED, without position and of the candidate's market; none is found exactly when no slot has that market |
| CapitalAllocator.ReserveInTables | app/capital_allocator.py:512-535 | reservation and slot change together |
| CapitalAllocator.ReplaceInTables | app/capital_allocator.py:231-300 | old reservation closed, new one created, slot renewed, and the renewed row returned |
| CapitalAllocator.RunCandidates | app/capital_allocator.py:387-562 | the candidate loop yields the tables, acceptances and blocks of the fold over the ranking, budget and slot lists included |
| AllocatorDecisions.VerdictReads | app/capital_allocator.py:202-220 | the first slot of the market is replaceable exactly if it is reserved without position for another candidate that is unknown or scores lower by the margin; otherwise it refuses with its reason |
| AllocatorDecisions.ApprovedIsLeast | app/capital_allocator.py:425-433 | the approved amount is the least of the budget left, the larger of the minimum and the rank's share of the cap, and the cap itself; a replacement is held to the exposure left plus its release, and the cash, instead of the budget |
| AllocatorDecisions.RoomReads | app/capital_allocator.py:427-441 | the room compared with the minimum is the exposure left, for a replacement with what its slot releases |
| AllocatorDecisions.LimitsRead | app/capital_allocator.py:425-433 | the terms of that minimum for a plain entry and for a replacement of the slot at f |
| AllocatorDecisions.VisitDecidesAsStated | app/capital_allocator.py:396-562 | a candidate is accepted exactly if trading is on, it has a place, its market is not open, it has no position and no unresolved order, may be traded live, covers its cost, the snapshot has no error and the amount reaches the minimum; what the acceptance changes; otherwise it is blocked for the one reason whose own condition holds |
| AllocatorDecisions.ReasonsExclude | app/capital_allocator.py:187-441 | at most one block reason applies |
| AllocatorDecisions.RunDecidesAsStated | app/capital_allocator.py:396-562 | every acceptance and every block of a run follows so from the state in front of its candidate, and none comes after the configured number |
| AllocatorDecisions.AcceptedWereAcceptable | app/capital_allocator.py:187-200 | nobody is accepted with a position, an unresolved order, no live permission, an edge below its cost, on an untrusted snapshot, with trading off, or below the minimum |
| AllocatorDecisions.StartReads | app/capital_snapshot.py:201-205 | the budget a run starts with: the exposure left or the cash above the reserve, whichever is less, and nothing without a balance |
| AllocatorDecisions.EmptySlotsInOrder | app/capital_allocator.py:379 | the free slots are the EMPTY ones in their order |
| AllocatorLaws.DecidedExactlyOnce | app/capital_allocator.py:396-562 | every visited candidate is accepted or blocked, never both, once; at most the configured number is accepted and the loop stops early only then |
| AllocatorLaws.BudgetTracks | app/capital_allocator.py:425-443 | each approved order lies between the minimum and the caps; the remaining budget is never negative and, while the net amount is within the start, is what the orders have left |
| AllocatorLaws.VisitMoney | app/capital_allocator.py:409-506 | one visit leaves money alone or accepts a bounded order; the order is within the budget left plus what it releases if and only if one of its limits is |
| AllocatorLaws.NetWithinBudgetExactlyWhenFitting | app/capital_allocator.py:427-506 | the net approved amount is within the snapshot budget at every point of a run if and only if, in front of each visit that replaces, one of the five limits on the order is within the budget left plus the reserved money of the slot |
| AllocatorLaws.ReplacementOverspends | app/capital_allocator.py:427-433 | a plain entry of 90 and a replacement of 100 that releases 10 are both approved on a budget of 90 |
| AllocatorLaws.FirstReplacementFits | app/capital_allocator.py:427-433 | before anything is accepted a replacement fits, for a reserve and slot amounts that are not negative |
| AllocatorLaws.OneEntryStaysWithinBudget | app/capital_allocator.py:396-398 | with at most one new entry per run the net amount stays within the budget, replacements included |
| AllocatorLaws.ExposureStaysWithinCap | app/capital_snapshot.py:201-205 | in a run without replacement the approvals sum to at most the budget; once anything is approved, open value + pending reservations + pending exchange buys + approvals <= the cap and cash stays at or above the reserve |
| AllocatorLaws.CapHoldsExactlyWhen | app/capital_allocator.py:425-443 | after a run without replacement that accepted something, cap and reserve hold if and only if the minimum order is positive or the snapshot itself was within both |
| AllocatorLaws.ZeroMinimumAcceptsPastTheCap | app/capital_allocator.py:433-442 | with a zero minimum an empty order is accepted although the exposure is past the cap |
| AllocatorLaws.RunKeepsMarkets | app/capital_allocator.py:396-562 | from slots with distinct ids whose EMPTY ones name no market and whose others name distinct ones, a run keeps that, accepts at most one candidate per market, none of an open market, and gives no empty slot away twice |
| AllocatorLaws.VisitCouplesExactlyWhenHeld | app/capital_allocator.py:482-535 | one visit keeps slots and reservations coupled if and only if the entry it replaces, if any, names its candidate and is still held |
| AllocatorLaws.RunCouplesExactlyWhenHeld | app/capital_allocator.py:396-562 | a run keeps them coupled throughout if and only if that holds for each entry it replaces; reserved money then equals live reservations |
| AllocatorLaws.RunKeepsTables | app/capital_allocator.py:396-562 | from tables without submitted entries a run keeps the coupling in any case |
| OrderLog.OrderDb.constructor | app/database.py:3320-3335 | log and claims start empty |
| OrderLog.OrderDb.InsertLiveOrderLog | app/database.py:3320-3439 | an insert is refused with its reason and stores nothing, or stores row and claim together |
| OrderLog.OrderDb.UpdateLiveOrderLog | app/database.py:3442-3548 | an update merges the row, refuses a uuid taken by another canonical row, and copies uuid and status to the claim |
| OrderRows.InsertStores | app/database.py:3320-3439 | the reason of each refusal stated in the rows, in their order; an admitted insert stores exactly the given columns and, if its key is wanted, one claim |
| OrderRows.UpdateStores | app/database.py:3442-3548 | each column is the given value if there is one and the old one otherwise; if the wanted uuid is another canonical order's, the uuid stays as read and the status is FAILED; the claims of the row's key copy status and a non-empty uuid; everything else stays |
| OrderRows.WriteStores | app/database.py:3446-3548 | the same for a write of any row read earlier |
| OrderRows.EventExactlyWhenSpelt | app/database.py:3254-3263 | a request id is a status event exactly if it contains one of six words |
| OrderRows.CanonicalExactlyWhenNotSpelt | app/database.py:3291-3306 | a row is canonical exactly if its request id, in small letters, contains none of the six words of the query |
| OrderLogLaws.EventsAreNotCanonical | app/database.py:3254-3308 | every status event is left out by the query for canonical rows |
| OrderLogLaws.InsertKeeps | app/database.py:3320-3439 | an insert keeps canonical uuids, requests and claims unique and every claim backed by its log row; a refused insert leaves both tables as they were |
| OrderLogLaws.WriteBackKeeps | app/database.py:3446-3548 | the write half of an update, whatever row was read before, keeps requests and claims unique and every claim backed, and neither adds nor renames a claim |
| OrderLogLaws.UpdateKeeps | app/database.py:3442-3548 | an update read and written in one step keeps all of that and the uniqueness of canonical uuids |
| OrderLogLaws.StaleUpdateKeepsUuidsExactlyWhen | app/database.py:3442-3461 | a write of a row read earlier keeps canonical uuids unique if and only if it does not fall back to a uuid another canonical row has by now |
| OrderLogLaws.RunsStayStructured | app/database.py:3320-3548 | in every interleaving of inserts, updates and delayed writes requests and claims stay unique and every claim has its log row |
| OrderLogLaws.AlwaysUniqueExactlyWhenSafe | app/database.py:3283-3548 | canonical uuids are unique throughout an interleaving if and only if no delayed write in it falls back on a taken uuid |
| OrderLogLaws.StaleWriteCanRepeatAUuid | app/database.py:3442-3461 | read a row, move it to another uuid, log a second row under the free one, write the first back: two canonical rows share the uuid |
| OrderLogLaws.RunsStayConsistent | app/database.py:3320-3548 | over every sequence of inserts and one-step updates canonical rows have distinct non-empty uuids and claims are unique and backed |
| OrderLogLaws.KeyAdmittedAtMostOnce | app/database.py:3346-3439 | in every interleaving, delayed writes included, at most one insert per idempotency key is admitted, one exactly if the key is claimed |
| OrderLogLaws.InsertKeepsOrdersExactlyWhenSeen | app/database.py:3348-3351 | an admitted insert keeps the uuids of all orders distinct if and only if it has none, is a status event, or no order left out by the query has its uuid |
| OrderLogLaws.WriteKeepsOrdersExactlyWhen | app/database.py:3453-3461 | a write keeps them distinct if and only if the uuid it stores belongs to no other order |
| OrderLogLaws.OrdersStayUniqueExactlyWhen | app/database.py:3320-3548 | over every interleaving the uuids of all orders stay distinct if and only if every step meets its condition |
| OrderLogLaws.UnseenRowsCanShareAUuid | app/database.py:3297-3302 | a request that is no status event but that the query leaves out can be logged, and a second one under its uuid |
| OrderLogLaws.SuchARequestExists | app/database.py:3257-3297 | there is such a request id |
| Leases.RuntimeLocks.constructor | app/database.py:4501-4514 | no lock is held at first |
| Leases.RuntimeLocks.AcquireRuntimeLock | app/database.py:4501-4535 | refused exactly when another instance's RUNNING row has not expired; otherwise the row is the caller's |
| Leases.RuntimeLocks.ReleaseRuntimeLock | app/database.py:4538-4551 | only the owner's release changes the row |
| Leases.SchedulerTasks.constructor | app/database.py:2005-2011 | no task runs at first |
| Leases.SchedulerTasks.AcquireSchedulerTaskLock | app/database.py:2005-2047 | refused exactly when the row is RUNNING, its lock time lies ahead and the caller's own ttl since the start has not passed |
| Leases.SchedulerTasks.FinishSchedulerTask | app/database.py:2050-2089 | a finish clears the lock time, whoever calls it |
| LeaseLaws.RuntimeLeasesNeverOverlap | app/database.py:4501-4551 | in every interleaving of acquire, re-acquire and release with monotone time, leases of different instances never overlap |
| LeaseLaws.HolderIsProtected | app/database.py:4515-4550 | while a lease runs every other instance is denied and its release changes nothing |
| LeaseLaws.GrantedUntilExpiry | app/database.py:4501-4535 | a grant writes the caller, RUNNING and the expiry, and denies others exactly until then |
| LeaseLaws.RefusalChangesNothing | app/database.py:4515-4518 | a refused request leaves the row to its holder |
| LeaseLaws.ReleaseFreesTheLock | app/database.py:4538-4551 | after the owner's release any instance is granted the lock at once |
| LeaseLaws.ReleaseLetsTheNextIn | app/database.py:4501-4551 | the same after any history: the next request gets a lease |
| LeaseLaws.TaskGrantedUntil | app/database.py:2005-2047 | a granted task denies a caller exactly while its lock time and the caller's own ttl since the start both lie ahead |
| LeaseLaws.TaskRefusalChangesNothing | app/database.py:2012-2022 | a refused caller leaves the task as it is |
| LeaseLaws.FinishAdmitsTheNext | app/database.py:2050-2089 | after a finish the next caller is admitted at once |
| LeaseLaws.SchedulerLeasesNeverOverlap | app/database.py:2005-2089 | with one ttl and, while a lease runs, finishes only by the process last granted, no two scheduler leases overlap |
| LeaseLaws.FinishIsSafeExactlyWhenOwn | app/database.py:2050-2089 | a finish keeps the row in step with the leases if and only if the process last granted makes it or no lease runs any more |
| LeaseLaws.TakenOverExactlyWhenOwnTtlPassed | app/database.py:2012-2020 | a running scheduler lease is taken over if and only if the newcomer's ttl since the start has passed |
| LeaseLaws.ForeignFinishBreaksTheLease | app/database.py:2050-2089 | after a finish by another process the next caller's lease overlaps the running one |
| Backtest.ReplayRows | app/backtest.py:90-185 | the loop yields the account of the rows: executions at the next open, marks at the close |
| Backtest.WorstDrawdown | app/backtest.py:188-200 | the minimum over the drawdown points |
| Backtest.SumPnls | app/backtest.py:189-192 | profit, loss and number of wins over the closed trades |
| Backtest.RunBacktest | app/backtest.py:58-215 | refused below 30 candles, otherwise the report of the run under the clamped risk |
| BacktestOrders.OrdersFollowTheCandles | app/backtest.py:106-171 | every order i follows its signal at the next open: a BUY at open x (1 + slippage) for the set share of the cash in front of it, with quantity x price = amount - fee, a SELL at open x (1 - slippage) for quantity x price; the fee is amount x rate |
| BacktestOrders.RowTradesExactlyWhen | app/backtest.py:106-171 | a row places an order exactly if it is a BUY with no position and something to buy, or a SELL with one, and a next candle exists |
| BacktestOrders.PointsMarkToMarket | app/backtest.py:173-185 | each equity point is cash + quantity x close after its row |
| BacktestOrders.ClosedPnls | app/backtest.py:138-171 | the closed PnLs are those of the SELL orders in their order |
| BacktestOrders.WinsAreCounted | app/backtest.py:189-192 | the wins are the closed PnLs above zero |
| BacktestLaws.AccountIsSound | app/backtest.py:108-171 | at every row cash + entry cost = initial cash + realised PnL, cash and quantity are not negative, orders alternate BUY and SELL from a BUY, and each SELL closes its BUY's quantity |
| BacktestLaws.ReportAddsUp | app/backtest.py:187-212 | gross profit - gross loss = realised PnL, and final equity is initial cash + realised PnL - entry cost + the position's value |
| BacktestLaws.SharedPast | app/backtest.py:91-185 | runs that share rows agree on the account up to the row before the last shared one |
| BacktestLaws.Causality | app/backtest.py:91-185 | the orders on the first n rows are a prefix of those of any longer run and the equity points before the n-th agree |
| BacktestLaws.PairwiseIsMaximum | app/backtest.py:173-200 | the quadratic drawdown is the maximum fall over all pairs i <= j |
| BacktestLaws.DrawdownInvariant | app/backtest.py:173-185 | after each row the running peak is a level reached, bounds all levels, and the worst point so far is the pairwise drawdown |
| BacktestLaws.OnePassDrawdownIsPairwise | app/backtest.py:173-200 | with non-negative closes the reported maximum drawdown is the pairwise one and lies in [0, 1], for every initial cash |
| PositionLoop.ScanSymbols | app/controlled_auto_live.py:2165-2174 | the selected decision is the first tradeable one that no other is preferred to, over all symbols and timeframes; none only if none is tradeable |
| PositionLoop.HoldPosition | app/controlled_auto_live.py:2412-2450 | the first tick that calls for an exit decides, and the time stop only if none does |
| PositionLoop.RoundsToExactlyWhen | app/live_smoke_test.py:518-521 | a volume rounds down to a given rounded volume if and only if it lies in the step that starts there |
| PositionLoop.TradeSelected | app/controlled_auto_live.py:2352-2505 | the whole outcome of a trade as a function of decision, notional and script; the BUY asks for the notional at the quoted price, rounded down, and the SELL for the executed volume |
| PositionLoop.TradeLaws | app/controlled_auto_live.py:2362-2505 | at most a BUY then a SELL, a SELL only after a filled BUY; a passed trade has both filled, its figures come from the two fills, and the SELL asks for the BUY's requested volume if and only if the BUY executed it up to less than one step |
| PositionLoop.RunPosition | app/controlled_auto_live.py:2328-2509 | the whole outcome of a sub-run as a function of symbols, notional and script; the laws of a trade, and an idle pass sent nothing |
| PositionLoop.VolumesCanDiffer | app/controlled_auto_live.py:2401-2463 | a BUY of 1.0 reported filled with 0.5 is followed by a SELL of 0.5 and the run passes |
| PositionReading.PreferenceReads | app/controlled_auto_live.py:2833-2848 | ETH 15m, BTC 15m, ETH 5m, BTC 5m, ETH 3m, BTC 3m in this order; within one of them the larger edge and then the larger score |
| PositionReading.FirstRankedIsTraded | app/controlled_auto_live.py:2833-2849 | over BTC and ETH the pair selected is the first tradeable one of this list, and none only if none is tradeable |
| PositionReading.TickReads | app/controlled_auto_live.py:2412-2450 | each exit reason has its own exact condition on the tick: stop, failed quote, loss limit, and from a minute on profit of the rate above the entry, then 0.3 percent below it |
| PositionReading.HoldReads | app/controlled_auto_live.py:2410-2450 | the first tick with such a condition decides |
| PositionReading.VolumeReads | app/live_smoke_test.py:518-521 | a rounded volume is the largest whole number of 0.00000001 steps not above the value |
| PositionReading.TradeReads | app/controlled_auto_live.py:2352-2505 | exactly when a trade passes, stops or fails, the orders sent with side, symbol, volume and filled flag, and figures and exit reason once both have filled |
| PositionReading.PositionReads | app/controlled_auto_live.py:2328-2509 | the first scan that fails, stops the run, reaches the loss limit, sees an open order or has a tradeable pair decides the run; without one it sends nothing |
| PositionLoop.LoopReport.constructor | app/controlled_auto_live.py:2537-2614 | the report starts at zero |
| PositionLoop.LoopReport.Merge | app/controlled_auto_live.py:2733-2778 | merging adds a passed sub-run's figures, symbol and exit reason, and nothing otherwise |
| PositionLoop.OneMoreExit | app/controlled_auto_live.py:2770-2774 | counting one exit reason raises the total of all reasons by one |
| PositionLoop.MergeKeepsFigures | app/controlled_auto_live.py:2737-2778 | merging keeps orders = 2 x trades, net = gross - fee, profitable + losing = trades and exit reasons = trades |
| PositionLoop.MergeKeepsLoop | app/controlled_auto_live.py:2659-2700 | merging a sub-run over the symbols not yet traded keeps one symbol per trade, never the same twice, each traced to the fills of its own pass |
| PositionLoop.MergeAddsUp | app/controlled_auto_live.py:2733-2778 | merging keeps gross, fee, net and realised PnL the sums, and profitable, losing and exit counts the numbers, over the trades |
| PositionReading.UntradedReads | app/controlled_auto_live.py:2659 | the symbols of the next pass are those allowed and not traded |
| PositionReading.AllowedReads | app/controlled_auto_live.py:2528-2529 | of the symbols asked for, in capitals, BTC and ETH are allowed; without any, both |
| PositionReading.ClampReads | app/controlled_auto_live.py:2533 | between one and three trades are asked for |
| PositionLoop.RunLoop | app/controlled_auto_live.py:2512-2730 | for every behaviour of the exchange the loop ends, trades each symbol at most once, reports figures that are sums over its trades and volumes traced to their fills; each sub-run is that of its pass over the symbols not traded yet, another pass follows only a trade without loss limit, and the final status is that of the last sub-run, of the pass that did not run, or of the closing checks and the net PnL |
| PositionLoop.LoopSellsAsRequestedExactlyWhen | app/controlled_auto_live.py:2401-2463 | in a finished loop every trade sold the volume it asked to buy if and only if every BUY executed it up to less than one step |
| PositionLoop.AtMostTwoTrades | app/controlled_auto_live.py:2528-2533 | with BTC and ETH the only symbols there are at most two trades and four orders, whatever maximum was asked for |
| ClientOrderIds.ReadWritten | app/controlled_auto_live.py:127-135 | digits written in a base read back to the number, contain no dash and do not start with a zero |
| ClientOrderIds.Base36 | app/controlled_auto_live.py:127-135 | the division loop writes the number in base 36 and reading it back gives the number; "0" for non-positive input |
| ClientOrderIds.PaddedReads | app/controlled_auto_live.py:142 | the zero-padded order number determines the number and has no dash |
| ClientOrderIds.OrderCounters.constructor | app/controlled_auto_live.py:111 | no run has been given a number |
| ClientOrderIds.OrderCounters.NewClientOrderId | app/controlled_auto_live.py:121-146 | each call numbers its run's ids by one more than those issued since the run last finished |
| ClientOrderIds.OrderCounters.FinishRun | app/controlled_auto_live.py:3900 | finishing forgets the run's counter and no other |
| ClientOrderIds.NumbersIncrease | app/controlled_auto_live.py:121-124 | in any interleaving of runs the numbers of one run strictly increase until it finishes |
| ClientOrderIds.FittingIdIsUnique | app/controlled_auto_live.py:138-146 | an id whose number is kept differs from every id of the run with another number, for all symbols, sides, clocks and random characters |
| ClientOrderIds.CutIdHasATwin | app/controlled_auto_live.py:145-146 | an id whose number is cut is shared with a named other number, for all clocks and random characters |
| ClientOrderIds.SharedExactlyWhenCut | app/controlled_auto_live.py:138-146 | for every number: another number can share its id if and only if the number is cut |
| ClientOrderIds.IdsInARunDiffer | app/controlled_auto_live.py:3646-3650 | over any interleaving of runs two ids of one unfinished run differ as soon as one of the two numbers is kept |
| OrderIdReading.IdReads | app/controlled_auto_live.py:138-146 | an id reads: "pv1" for a position loop and "ctl" otherwise, the hash, symbol, b or s, a field of at least four digits that reads as the number, the clock modulo 36 to the eighth in base 36, and the random characters, cut after 36 |
| OrderIdReading.DigitsRead | app/controlled_auto_live.py:128 | the digits are 0 to 9 and then a to z |
| OrderIdReading.LastEightReads | app/controlled_auto_live.py:143 | the last eight base-36 digits are the remainder by 36 to the eighth |
| OrderIdReading.SymbolReads | app/controlled_auto_live.py:3647 | the symbol is what follows the last dash of the market, in capitals |
| OrderIdReading.NumberReads | app/controlled_auto_live.py:121-124 | a run's number is how many ids it was given since it last finished |
| OrderIdReading.IssuedIdReads | app/controlled_auto_live.py:3646-3650 | over any interleaving of runs every id issued reads so, with that number |
| OpenOrderAudit.OrdersByIdentity | app/accounting_epoch.py:498-517 | the index has exactly the keys of the orders, each standing for the last order that has it |
| OpenOrderAudit.PairOrders | app/accounting_epoch.py:192-206 | one item for every key of either side, once, classified from its two rows |
| OpenOrderAudit.AuditClassifies | app/accounting_epoch.py:520-571 | source and recommended action of an item follow from where it exists and whether it is current; every item has a side and is current or legacy, not both |
| OpenOrderAudit.AddOpenOrderBlockers | app/accounting_epoch.py:270-280 | exactly the blockers with a positive count are appended, with that count |
| OpenOrderAudit.CountsRelate | app/accounting_epoch.py:574-590 | the counts of classified items: blocking + stale = all when the exchange answered, all items block when it did not |
| OpenOrderAudit.AuditAgreesWithPreflight | app/accounting_epoch.py:574-607 | for all rows and every query status the blocking count is positive if and only if an exchange, current-epoch or unknown blocker is raised; current + legacy = total; a verified query leaves out exactly the stale rows |
| OpenOrderAudit.NextStepMeans | app/accounting_epoch.py:619-626 | the next step is "clear" exactly without any row, "confirm cancel" exactly with exchange rows, "ignore" exactly when a verified query leaves only stale database rows |
| OpenOrderReading.StripReads | app/accounting_epoch.py:509 | stripping leaves what lies between the white space at both ends |
| OpenOrderReading.KeyReads | app/accounting_epoch.py:498-517 | the key is the first of six names that is not blank, stripped; without one it is made of side, market, side of the order, time and place |
| OpenOrderReading.CanonicalReads | app/accounting_epoch.py:640-641 | each "+00:00" becomes "Z" and nothing else changes |
| OpenOrderReading.NotBeforeReads | app/accounting_epoch.py:531 | times are compared as texts, at the first place where they differ |
| OpenOrderReading.ItemReads | app/accounting_epoch.py:529-548 | an item is current exactly if the first time given, the database row's before the exchange's, is not before the start of the epoch |
| OpenOrderReading.SidesRead | app/accounting_epoch.py:575-576 | the counts of exchange and database rows are the numbers of such items |
| OpenOrderReading.EpochsRead | app/accounting_epoch.py:577-578 | so are those of current, legacy and stale rows |
| OpenOrderReading.UnknownReads | app/accounting_epoch.py:579-584 | unknown are the unconfirmed rows of an answered query, and all database rows of another |
| OpenOrderReading.BlockingReads | app/accounting_epoch.py:585-589 | exactly these items block |
| OpenOrderReading.AdviceReads | app/accounting_epoch.py:590-626 | the trust level and the next step, each under its exact condition |
| KeySort.SortKeeps | app/exchange_fills_ledger.py:189 | the stable sort is sorted and a permutation |
| KeySort.SortIgnoresArrival | app/exchange_fills_ledger.py:189 | with distinct keys it does not depend on the input order |
| KeySort.FilterSort | app/exchange_fills_ledger.py:189 | sorting a part is taking that part of the sorted whole |

## Left out

- FillLedger.ComputeRealizedPnl: floating-point rounding, the per-fill trace and its warning counters, the duplicate-key warnings and the list of open positions are not modelled; the trade list is the full one, which the code cuts to 50, and the average entry price is not part of the report.
- LedgerDecomposition.GroupedPnl: win rates and averages per group are not modelled, and grouping by strategy or session is not claimed to add up, because a market's fills can fall into several groups.
- LedgerSplitting.SplittingKeepsTheReport: the unsplit fill is taken to sort between its two parts, which stay next to each other.
- LedgerSplitting.SplittingIsInvisibleExactlyWhenClear: the unsplit ledger itself drops no dust, which NoDustExactlyWhenClean restates by its fills; what happens to a split next to other dust is not stated.
- SlotTables.SlotDb.FinalizeEntryLifecycle: ties between rows of equal rank, broken in the code by update time and id, are left open; every choice is covered.
- SlotTables.SlotDb.ReconcilePositionSlots: one exchange only, since one clearing step of the code has no exchange filter; update times and reason texts are not modelled.
- SlotCoupling.RunsStayCoupled: assumes the guards the callers check (an EMPTY slot and a market of its own for a reserve, a held reservation for a replace, no other slot with the position for a finalise); outside those the exactness lemmas say what happens.
- AllocatorLaws.ExposureStaysWithinCap: stated for runs without replacement, because a replacement is sized from the exposure left at the start of the run; NetWithinBudgetExactlyWhenFitting covers the others.
- AllocatorLaws.RunCouplesExactlyWhenHeld: candidates name a market, and the slot list is read from the same tables.
- CapitalAllocator.RunCandidates: decision rows, queue entries, sessions and promotions are not modelled.
- CapitalAllocator.ReplaceInTables: stopping the old session and the candidate promotions are not modelled.
- Backtest.RunBacktest: total return, averages, ratios, holding times and the score are not part of the report.
- PositionLoop.LoopReport.Merge: scan summaries, fill counts, the fee difference, timeframes and the protected figures are not merged.
- LeaseLaws.SchedulerLeasesNeverOverlap: needs one ttl, and finishes by the last granted process while a lease runs; the lemmas after it show why.
- OrderLogLaws.RunsStayConsistent: each update reads and writes in one step; delayed writes are covered by the lemmas on interleavings before it.
- PositionLoop.RunLoop: equity and epoch figures, the protected-session figures (equal to the realised ones here), scan summaries, progress updates and report persistence are not modelled; the closing checks are one reply that may fail, and the ledger written at the end is taken not to overwrite the PnL fields.
- PositionLoop.RunPosition: waiting and sleeping are folded into the list of scans and ticks that happen before the deadline, which is finite.
- ClientOrderIds.IdsInARunDiffer: ids of different runs are told apart only by an eight-character hash and are not claimed to differ; capitals are taken for the letters a to z only.
- OpenOrderAudit.PairOrders: items come in some order of the keys, which the code sorts; field values are texts, and white space is blank, tab and line ends.
- OrderLog.OrderDb.UpdateLiveOrderLog: an empty uuid in an update counts as none, where the code would clear the uuid of the claim.
- OrderLog.OrderDb.InsertLiveOrderLog: the columns that play no part in identity, and the constraints of the table other than unique request ids, which become one flag.
- The allocation score, the expected edge, candidate ranking, sessions, promotions and queue entries around the allocator: they only feed or follow the loop.
- The ownership and accounting-status report built around the ledger, and the matching of fills to database orders: lookups and counts without a loop-carried state.
- The balance, mismatch and warning part of the capital snapshot: its results are inputs of the allocator.
- SQL, schema creation, JSON, network and broker calls, candle loading, strategies, notifications, web routes and the frontend.
