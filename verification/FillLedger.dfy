/** Realised and unrealised PnL over a ledger of exchange fills: every market's
    fills replayed in (executed_at, id) order over that market's FIFO queue. */
module FillLedger {
  import opened Basics
  import opened FifoLots
  import opened KeySort
  import opened RealSums

  datatype Side = Buy | Sell | Other

  // `feeIsKrw` is the fee_currency test; `at` is executed_at_utc as an ordered stamp.
  datatype Fill = Fill(id: int, at: int, market: string, symbol: string, side: Side,
                       quantity: real, value: real, fee: real, feeIsKrw: bool)

  function ReplayKey(): Fill -> Key { (f: Fill) => (f.at, f.id) }

  // Every total that one fill can change. `matched` and `dropped` are the parts of
  // earlier BUY lots that a SELL charges and discards.
  datatype Tally = Tally(bought: Lot, matched: Lot, dropped: Lot,
                         gross: real, sellValue: real, sellFee: real, nonKrwFee: real,
                         unpaired: real, buyCount: nat, sellCount: nat)

  const ZERO := Tally(NOTHING, NOTHING, NOTHING, 0.0, 0.0, 0.0, 0.0, 0.0, 0, 0)

  function Plus(a: Tally, b: Tally): Tally {
    Tally(AddLot(a.bought, b.bought), AddLot(a.matched, b.matched), AddLot(a.dropped, b.dropped),
          a.gross + b.gross, a.sellValue + b.sellValue, a.sellFee + b.sellFee,
          a.nonKrwFee + b.nonKrwFee, a.unpaired + b.unpaired,
          a.buyCount + b.buyCount, a.sellCount + b.sellCount)
  }

  datatype Trade = Trade(market: string, value: real, basis: real, gross: real,
                         buyFee: real, sellFee: real, net: real, unpairedQuantity: real)

  type Queues = map<string, seq<Lot>>

  datatype Book = Book(queues: Queues, tally: Tally, trades: seq<Trade>)

  function QueueOf(queues: Queues, market: string): seq<Lot> {
    if market in queues then queues[market] else []
  }

  function KrwFee(f: Fill): real { if f.feeIsKrw then f.fee else 0.0 }

  function LotOf(f: Fill): Lot { Lot(f.quantity, f.value, KrwFee(f)) }

  predicate IsBuy(f: Fill) { f.quantity > 0.0 && f.side.Buy? }
  predicate IsSell(f: Fill) { f.quantity > 0.0 && f.side.Sell? }

  function StepQueue(q: seq<Lot>, f: Fill): seq<Lot> {
    if IsBuy(f) then q + [LotOf(f)]
    else if IsSell(f) then Consume(q, f.quantity).queue
    else q
  }

  function Unpaired(f: Fill, remaining: real): real
    requires f.quantity > 0.0
  {
    if remaining > DUST then f.value * (remaining / f.quantity) else 0.0
  }

  function Effect(q: seq<Lot>, f: Fill): Tally {
    var base := ZERO.(nonKrwFee := if f.feeIsKrw then 0.0 else f.fee);
    if IsBuy(f) then base.(bought := LotOf(f), buyCount := 1)
    else if IsSell(f) then
      var o := Consume(q, f.quantity);
      base.(matched := Lot(f.quantity - o.remaining, o.basis, o.buyFee), dropped := o.dropped,
            gross := f.value - o.basis, sellValue := f.value, sellFee := KrwFee(f),
            unpaired := Unpaired(f, o.remaining), sellCount := 1)
    else base
  }

  function TradeOf(q: seq<Lot>, f: Fill): Trade {
    var o := Consume(q, f.quantity);
    var gross := f.value - o.basis;
    var fees := o.buyFee + KrwFee(f);
    Trade(f.market, f.value, o.basis, gross, o.buyFee, KrwFee(f), gross - fees, o.remaining)
  }

  function Step(b: Book, f: Fill): Book {
    var q := QueueOf(b.queues, f.market);
    Book(b.queues[f.market := StepQueue(q, f)], Plus(b.tally, Effect(q, f)),
         if IsSell(f) then b.trades + [TradeOf(q, f)] else b.trades)
  }

  // Rows in replay order.
  function Run(rows: seq<Fill>): Book {
    if rows == [] then Book(map[], ZERO, [])
    else Step(Run(rows[..|rows| - 1]), rows[|rows| - 1])
  }

  function TradeFees(trades: seq<Trade>): real {
    if trades == [] then 0.0
    else TradeFees(trades[..|trades| - 1]) + trades[|trades| - 1].buyFee + trades[|trades| - 1].sellFee
  }

  // ----- open positions at valuation prices

  function PriceOf(prices: map<string, real>, market: string): real {
    if market in prices then prices[market] else 0.0
  }

  function OpenQuantity(queues: Queues): string -> real {
    m => Total(QueueOf(queues, m))
  }

  function OpenWeight(queues: Queues, k: Basis): string -> real {
    m => TotalWeight(QueueOf(queues, m), k)
  }

  function OpenValue(queues: Queues, prices: map<string, real>): string -> real {
    m => Total(QueueOf(queues, m)) * PriceOf(prices, m)
  }

  function MarketUnrealized(q: seq<Lot>, price: real): real {
    Total(q) * price - TotalWeight(q, CostBasis)
  }

  function MarketExitFee(q: seq<Lot>, price: real, feeRate: real): real {
    Max(Total(q) * price * feeRate, 0.0)
  }

  function Unrealized(queues: Queues, prices: map<string, real>): string -> real {
    m => MarketUnrealized(QueueOf(queues, m), PriceOf(prices, m))
  }

  function ExitFee(queues: Queues, prices: map<string, real>, feeRate: real): string -> real {
    m => MarketExitFee(QueueOf(queues, m), PriceOf(prices, m), feeRate)
  }

  datatype Report = Report(fillCount: nat, buyCount: nat, sellCount: nat,
                           buyValue: real, sellValue: real, gross: real,
                           buyFeeTotal: real, sellFeeTotal: real, realizedFee: real, nonKrwFee: real,
                           net: real, openCost: real, openQuantity: real,
                           unrealized: real, exitFee: real, total: real, unpaired: real,
                           trades: seq<Trade>)

  ghost function ReportOf(rows: seq<Fill>, prices: map<string, real>, feeRate: real): Report {
    var b := Run(StableSort(rows, ReplayKey()));
    var t, markets := b.tally, b.queues.Keys;
    var realizedFee := TradeFees(b.trades);
    var unrealized := SetSum(markets, Unrealized(b.queues, prices));
    var exitFee := SetSum(markets, ExitFee(b.queues, prices, feeRate));
    Report(|rows|, t.buyCount, t.sellCount, t.bought.cost, t.sellValue, t.gross,
           t.bought.fee, t.sellFee, realizedFee, t.nonKrwFee, t.gross - realizedFee,
           SetSum(markets, OpenWeight(b.queues, CostBasis)), SetSum(markets, OpenQuantity(b.queues)),
           unrealized, exitFee, t.gross - realizedFee + unrealized - exitFee, t.unpaired, b.trades)
  }

  // ----- the ledger loop

  method SumQueue(queue: seq<Lot>) returns (quantity: real, cost: real)
    ensures quantity == Total(queue) && cost == TotalWeight(queue, CostBasis)
  {
    quantity, cost := 0.0, 0.0;
    var rest := queue;
    while rest != []
      invariant Total(queue) == quantity + Total(rest)
      invariant TotalWeight(queue, CostBasis) == cost + TotalWeight(rest, CostBasis)
      decreases |rest|
    {
      quantity, cost, rest := quantity + rest[0].quantity, cost + rest[0].cost, rest[1..];
    }
  }

  // One SELL row against its market's queue.
  method SellRow(queue: seq<Lot>, row: Fill, fee: real)
    returns (left: seq<Lot>, trade: Trade, unpaired: real)
    requires Live(queue) && IsSell(row) && fee == KrwFee(row)
    ensures left == StepQueue(queue, row)
    ensures trade == TradeOf(queue, row)
    ensures unpaired == Effect(queue, row).unpaired && trade.gross == Effect(queue, row).gross
  {
    hide Consume;
    hide KrwFee;
    var remaining, basis, buyFee, matched;
    left, remaining, basis, buyFee, matched := ConsumeLots(queue, row.quantity);
    unpaired := 0.0;
    if remaining > DUST {
      unpaired := row.value * (remaining / row.quantity);
    }
    var tradeGross := row.value - basis;
    var tradeFee := buyFee + fee;
    trade := Trade(row.market, row.value, basis, tradeGross, buyFee, fee, tradeGross - tradeFee, remaining);
  }

  // The replay of the fills over the queues.
  method ReplayFills(ordered: seq<Fill>)
    returns (lots: Queues, gross: real, buyFeeTotal: real, sellFeeTotal: real, nonKrwFee: real,
             unpaired: real, buyValue: real, sellValue: real, buyCount: nat, sellCount: nat,
             trades: seq<Trade>)
    ensures var b := Run(ordered);
            && lots == b.queues && trades == b.trades
            && gross == b.tally.gross && unpaired == b.tally.unpaired
            && buyFeeTotal == b.tally.bought.fee && buyValue == b.tally.bought.cost
            && sellFeeTotal == b.tally.sellFee && sellValue == b.tally.sellValue
            && nonKrwFee == b.tally.nonKrwFee
            && buyCount == b.tally.buyCount && sellCount == b.tally.sellCount
  {
    hide Effect;
    hide StepQueue;
    hide TradeOf;
    hide Consume;
    hide Run;
    lots, trades := map[], [];
    gross, buyFeeTotal, sellFeeTotal, nonKrwFee, unpaired := 0.0, 0.0, 0.0, 0.0, 0.0;
    buyValue, sellValue, buyCount, sellCount := 0.0, 0.0, 0, 0;
    ghost var done := Book(map[], ZERO, []);
    RunEmpty();
    for i := 0 to |ordered|
      invariant done == Run(ordered[..i])
      invariant lots == done.queues && trades == done.trades
      invariant var t := done.tally;
                && gross == t.gross && unpaired == t.unpaired
                && buyFeeTotal == t.bought.fee && buyValue == t.bought.cost
                && sellFeeTotal == t.sellFee && sellValue == t.sellValue
                && nonKrwFee == t.nonKrwFee
                && buyCount == t.buyCount && sellCount == t.sellCount
    {
      var row := ordered[i];
      RunStep(ordered, i);
      QueueIsLive(ordered[..i], row.market);
      var fee := if row.feeIsKrw then row.fee else 0.0;
      if !row.feeIsKrw {
        nonKrwFee := nonKrwFee + row.fee;
      }
      var queue := if row.market in lots then lots[row.market] else [];
      EffectCases(queue, row);
      lots := lots[row.market := queue];
      if row.quantity <= 0.0 {
      } else if row.side == Buy {
        lots := lots[row.market := queue + [Lot(row.quantity, row.value, fee)]];
        buyFeeTotal := buyFeeTotal + fee;
        buyCount := buyCount + 1;
        buyValue := buyValue + row.value;
      } else if row.side != Sell {
      } else {
        sellCount := sellCount + 1;
        sellValue := sellValue + row.value;
        var left, trade, short := SellRow(queue, row, fee);
        lots := lots[row.market := left];
        unpaired := unpaired + short;
        sellFeeTotal := sellFeeTotal + fee;
        gross := gross + trade.gross;
        trades := trades + [trade];
      }
      done := Step(done, row);
    }
    assert ordered[..|ordered|] == ordered;
  }

  lemma QueueIsLive(rows: seq<Fill>, market: string)
    ensures Live(QueueOf(Run(rows).queues, market))
  {
    QueueIsResidual(rows, market);
  }

  lemma RunEmpty()
    ensures Run([]) == Book(map[], ZERO, [])
  {
  }

  lemma EffectCases(q: seq<Lot>, f: Fill)
    ensures var t := Effect(q, f);
            && t.nonKrwFee == (if f.feeIsKrw then 0.0 else f.fee)
            && t.bought == (if IsBuy(f) then LotOf(f) else NOTHING)
            && t.sellValue == (if IsSell(f) then f.value else 0.0)
            && t.sellFee == (if IsSell(f) then KrwFee(f) else 0.0)
            && t.buyCount == (if IsBuy(f) then 1 else 0)
            && t.sellCount == (if IsSell(f) then 1 else 0)
            && (!IsSell(f) ==> t.unpaired == 0.0 && t.gross == 0.0 && t.matched == NOTHING && t.dropped == NOTHING)
    ensures IsBuy(f) ==> StepQueue(q, f) == q + [LotOf(f)]
    ensures !IsBuy(f) && !IsSell(f) ==> StepQueue(q, f) == q
  {
  }

  method ValueMarket(lots: Queues, market: string, prices: map<string, real>, feeRate: real)
    returns (cost: real, quantity: real, unrealized: real, exitFee: real)
    requires market in lots
    ensures cost == OpenWeight(lots, CostBasis)(market) && quantity == OpenQuantity(lots)(market)
    ensures unrealized == Unrealized(lots, prices)(market)
    ensures exitFee == ExitFee(lots, prices, feeRate)(market)
  {
    quantity, cost := SumQueue(lots[market]);
    var value := quantity * PriceOf(prices, market);
    unrealized := value - cost;
    exitFee := Max(value * feeRate, 0.0);
    assert value * feeRate == Total(lots[market]) * PriceOf(prices, market) * feeRate;
  }

  // The closing loop over the markets, in any order.
  method ValueOpenLots(lots: Queues, prices: map<string, real>, feeRate: real)
    returns (openCost: real, openQuantity: real, unrealized: real, exitFee: real)
    ensures openCost == SetSum(lots.Keys, OpenWeight(lots, CostBasis))
    ensures openQuantity == SetSum(lots.Keys, OpenQuantity(lots))
    ensures unrealized == SetSum(lots.Keys, Unrealized(lots, prices))
    ensures exitFee == SetSum(lots.Keys, ExitFee(lots, prices, feeRate))
  {
    hide OpenWeight;
    hide OpenQuantity;
    hide Unrealized;
    hide ExitFee;
    openCost, openQuantity, unrealized, exitFee := 0.0, 0.0, 0.0, 0.0;
    var pending := lots.Keys;
    while pending != {}
      invariant pending <= lots.Keys
      invariant SetSum(lots.Keys, OpenWeight(lots, CostBasis)) == openCost + SetSum(pending, OpenWeight(lots, CostBasis))
      invariant SetSum(lots.Keys, OpenQuantity(lots)) == openQuantity + SetSum(pending, OpenQuantity(lots))
      invariant SetSum(lots.Keys, Unrealized(lots, prices)) == unrealized + SetSum(pending, Unrealized(lots, prices))
      invariant SetSum(lots.Keys, ExitFee(lots, prices, feeRate)) == exitFee + SetSum(pending, ExitFee(lots, prices, feeRate))
      decreases |pending|
    {
      var market :| market in pending;
      SetSumPick(pending, market, OpenWeight(lots, CostBasis));
      SetSumPick(pending, market, OpenQuantity(lots));
      SetSumPick(pending, market, Unrealized(lots, prices));
      SetSumPick(pending, market, ExitFee(lots, prices, feeRate));
      pending := pending - {market};
      var cost, quantity, marketUnrealized, marketExitFee := ValueMarket(lots, market, prices, feeRate);
      openCost := openCost + cost;
      openQuantity := openQuantity + quantity;
      unrealized := unrealized + marketUnrealized;
      exitFee := exitFee + marketExitFee;
    }
  }

  method SumTradeFees(trades: seq<Trade>) returns (fees: real)
    ensures fees == TradeFees(trades)
  {
    fees := 0.0;
    for i := 0 to |trades|
      invariant fees == TradeFees(trades[..i])
    {
      assert trades[..i + 1][..i] == trades[..i];
      fees := fees + trades[i].buyFee + trades[i].sellFee;
    }
    assert trades[..|trades|] == trades;
  }

  method ComputeRealizedPnl(rows: seq<Fill>, prices: map<string, real>, feeRate: real)
    returns (report: Report)
    ensures report == ReportOf(rows, prices, feeRate)
  {
    var ordered := StableSort(rows, ReplayKey());
    var lots, gross, buyFeeTotal, sellFeeTotal, nonKrwFee, unpaired, buyValue, sellValue,
        buyCount, sellCount, trades := ReplayFills(ordered);
    var openCost, openQuantity, unrealized, exitFee := ValueOpenLots(lots, prices, feeRate);
    var realizedFee := SumTradeFees(trades);
    report := Report(|rows|, buyCount, sellCount, buyValue, sellValue, gross,
                     buyFeeTotal, sellFeeTotal, realizedFee, nonKrwFee, gross - realizedFee,
                     openCost, openQuantity, unrealized, exitFee,
                     gross - realizedFee + unrealized - exitFee, unpaired, trades);
  }

  lemma RunStep(rows: seq<Fill>, i: nat)
    requires i < |rows|
    ensures Run(rows[..i + 1]) == Step(Run(rows[..i]), rows[i])
  {
    assert rows[..i + 1][..i] == rows[..i];
  }

  // ----- the queue is an interval of the market's bought quantity

  // The BUY lots of one market, oldest first, as they were bought.
  function Buys(rows: seq<Fill>, market: string): seq<Lot> {
    if rows == [] then []
    else
      var f, before := rows[|rows| - 1], Buys(rows[..|rows| - 1], market);
      if f.market == market && IsBuy(f) then before + [LotOf(f)] else before
  }

  // How far into the market's cumulative bought quantity the SELLs have reached.
  function Pointer(rows: seq<Fill>, market: string): real {
    if rows == [] then 0.0
    else
      var f, before := rows[|rows| - 1], rows[..|rows| - 1];
      var p := Pointer(before, market);
      if f.market == market && IsSell(f)
      then Snap(Buys(before, market), SellEnd(before, f))
      else p
  }

  // A SELL starts at the pointer and stops early when the bought quantity runs out.
  function SellEnd(before: seq<Fill>, f: Fill): real {
    Min(Pointer(before, f.market) + f.quantity, Total(Buys(before, f.market)))
  }

  lemma {:induction false} BuysAreLive(rows: seq<Fill>, market: string)
    ensures Live(Buys(rows, market))
  {
    if rows != [] {
      BuysAreLive(rows[..|rows| - 1], market);
    }
  }

  // Representation: each queue is what lies beyond the pointer.
  lemma {:induction false} QueueIsResidual(rows: seq<Fill>, market: string)
    ensures Live(Buys(rows, market))
    ensures 0.0 <= Pointer(rows, market) <= Total(Buys(rows, market))
    ensures QueueOf(Run(rows).queues, market) == Drop(Buys(rows, market), Pointer(rows, market))
    ensures Live(QueueOf(Run(rows).queues, market))
  {
    hide Snap;
    hide Drop;
    hide Consume;
    BuysAreLive(rows, market);
    if rows == [] {
      assert Drop([], 0.0) == [] by { DropTotals([], 0.0); EmptyDrop(); }
    } else {
      var before, f := rows[..|rows| - 1], rows[|rows| - 1];
      QueueIsResidual(before, market);
      var bs, p := Buys(before, market), Pointer(before, market);
      if f.market == market && IsBuy(f) {
        AppendKeepsFront(bs, LotOf(f), p);
        AppendTotals(bs, LotOf(f), CostBasis);
        assert Pointer(rows, market) == p <= Total(Buys(rows, market));
      } else if f.market == market && IsSell(f) {
        SellReaches(bs, p, f.quantity);
        SellMovesPointer(bs, p, f.quantity);
        assert p <= Pointer(rows, market) <= Total(Buys(rows, market));
      } else {
        assert Pointer(rows, market) == p && Buys(rows, market) == bs;
      }
    }
    DropTotals(Buys(rows, market), Pointer(rows, market));
  }

  lemma EmptyDrop()
    ensures Drop([], 0.0) == []
  {
  }

  // A SELL is charged, lot by lot, the overlap of its interval with the lot's
  // interval at the lot's unit cost and unit fee.
  lemma SellChargesOverlaps(before: seq<Fill>, f: Fill, k: Basis)
    requires IsSell(f)
    ensures var bs, p, e := Buys(before, f.market), Pointer(before, f.market), SellEnd(before, f);
            var effect := Effect(QueueOf(Run(before).queues, f.market), f);
            && Live(bs) && p <= e <= Total(bs)
            && effect.matched.quantity == e - p
            && Weight(effect.matched, k) == OverlapWeight(bs, 0.0, p, e, k)
            && effect.dropped.quantity == Snap(bs, e) - e
            && Weight(effect.dropped, k) == OverlapWeight(bs, 0.0, e, Snap(bs, e), k)
  {
    hide Snap;
    hide Total;
    hide OverlapWeight;
    hide Drop;
    hide Consume;
    var bs, p := Buys(before, f.market), Pointer(before, f.market);
    QueueIsResidual(before, f.market);
    SellReaches(bs, p, f.quantity);
    SellMovesPointer(bs, p, f.quantity);
    SellChargedByOverlap(bs, p, f.quantity, k);
  }

  // Lots bought after a SELL lie beyond its interval, so charging against every BUY
  // of the run gives the same figure.
  lemma {:induction false} LaterLotsDoNotOverlap(rows: seq<Fill>, j: nat, market: string, from: real, to: real, k: Basis)
    requires j <= |rows|
    requires from <= to <= Total(Buys(rows[..j], market))
    ensures Live(Buys(rows[..j], market)) && Live(Buys(rows, market))
    ensures OverlapWeight(Buys(rows, market), 0.0, from, to, k)
         == OverlapWeight(Buys(rows[..j], market), 0.0, from, to, k)
    ensures Total(Buys(rows[..j], market)) <= Total(Buys(rows, market))
    decreases |rows|
  {
    hide OverlapWeight;
    hide Charge;
    BuysAreLive(rows[..j], market);
    BuysAreLive(rows, market);
    if j == |rows| {
      assert rows[..j] == rows;
    } else {
      var before, f := rows[..|rows| - 1], rows[|rows| - 1];
      assert before[..j] == rows[..j];
      LaterLotsDoNotOverlap(before, j, market, from, to, k);
      if f.market == market && IsBuy(f) {
        var bs, l := Buys(before, market), LotOf(f);
        AppendCumulative(bs, l, from, k);
        AppendCumulative(bs, l, to, k);
        AppendTotals(bs, l, k);
        ChargeDifference(l, 0.0, 0.0, k);
        OverlapIsDifference(bs, 0.0, from, to, k);
        OverlapIsDifference(bs + [l], 0.0, from, to, k);
      }
    }
  }

  // Quantity a market's SELLs have matched, and quantity they have dropped as dust.
  function UsedUp(rows: seq<Fill>, market: string): (real, real) {
    if rows == [] then (0.0, 0.0)
    else
      var f, before := rows[|rows| - 1], rows[..|rows| - 1];
      var (matched, dropped) := UsedUp(before, market);
      var effect := Effect(QueueOf(Run(before).queues, market), f);
      if f.market == market
      then (matched + effect.matched.quantity, dropped + effect.dropped.quantity)
      else (matched, dropped)
  }

  // The pointer is the quantity the SELLs have matched plus the dust they have dropped.
  lemma {:induction false} PointerIsUsedUp(rows: seq<Fill>, market: string)
    ensures Pointer(rows, market) == UsedUp(rows, market).0 + UsedUp(rows, market).1
  {
    hide Consume;
    hide Snap;
    if rows != [] {
      var before, f := rows[..|rows| - 1], rows[|rows| - 1];
      PointerIsUsedUp(before, market);
      if f.market == market && IsSell(f) {
        SellChargesOverlaps(before, f, CostBasis);
      }
    }
  }

  // The j-th row of a ledger, a SELL, against all the BUY lots of that ledger.
  lemma LedgerChargesOverlaps(rows: seq<Fill>, j: nat, k: Basis)
    requires j < |rows| && IsSell(rows[j])
    ensures var f, before := rows[j], rows[..j];
            var from := UsedUp(before, f.market).0 + UsedUp(before, f.market).1;
            var to := Min(from + f.quantity, Total(Buys(before, f.market)));
            var effect := Effect(QueueOf(Run(before).queues, f.market), f);
            && Live(Buys(rows, f.market))
            && effect.matched.quantity == to - from
            && Weight(effect.matched, k) == OverlapWeight(Buys(rows, f.market), 0.0, from, to, k)
            && 0.0 <= effect.dropped.quantity <= DUST
  {
    hide Run;
    hide Drop;
    hide Consume;
    hide Total;
    hide UsedUp;
    hide Buys;
    hide OverlapWeight;
    hide Effect;
    hide Snap;
    var f, before := rows[j], rows[..j];
    PointerIsUsedUp(before, f.market);
    QueueIsResidual(before, f.market);
    SellReaches(Buys(before, f.market), Pointer(before, f.market), f.quantity);
    SellChargesOverlaps(before, f, k);
    LaterLotsDoNotOverlap(rows, j, f.market, Pointer(before, f.market), SellEnd(before, f), k);
  }
}
