/** What each backtest order was placed for and at which figures, read off the candles and
    the risk settings alone. */
module BacktestOrders {
  import opened Basics
  import opened Backtest
  import opened BacktestLaws

  // The clamped settings.
  function Size(risk: Risk): real {
    if risk.positionSize < 0.0 then 0.0 else if risk.positionSize > 1.0 then 1.0 else risk.positionSize
  }

  function Fee(risk: Risk): real { if risk.feeRate < 0.0 then 0.0 else risk.feeRate }

  function Slippage(risk: Risk): real { if risk.slippageRate < 0.0 then 0.0 else risk.slippageRate }

  function PnlOf(orders: seq<Order>): real {
    if orders == [] then 0.0 else PnlOf(orders[..|orders| - 1]) + orders[|orders| - 1].pnl
  }

  // An order of a run over `rows`, with `cash` in front of it.
  predicate AsSignalled(o: Order, rows: seq<Row>, risk: Risk, cash: real) {
    && o.signalRow + 1 < |rows| && o.quantity > 0.0
    && var open := rows[o.signalRow + 1].open;
       && o.fee == o.amount * Fee(risk)
       && match o.side
          case BuySide =>
            && rows[o.signalRow].signal.Buy? && o.price == open * (1.0 + Slippage(risk))
            && o.amount == cash * Size(risk) && o.quantity * o.price == Max(o.amount - o.fee, 0.0) && o.pnl == 0.0
          case SellSide =>
            && rows[o.signalRow].signal.Sell? && o.price == open * (1.0 - Slippage(risk))
            && o.amount == o.quantity * o.price
  }

  // Each order, with the cash that the orders in front of it have left.
  predicate AllAsSignalled(orders: seq<Order>, rows: seq<Row>, risk: Risk) {
    forall i | 0 <= i < |orders| :: AsSignalled(orders[i], rows, risk, risk.initialCash + PnlOf(orders[..i]))
  }

  lemma QuotientTimes(x: real, d: real)
    requires d != 0.0
    ensures x / d * d == x
  {
  }

  lemma BuyReads(cash: real, open: real, risk: Risk)
    ensures var r, price, budget := Clamped(risk), open * (1.0 + Slippage(risk)), cash * Size(risk);
            && Budget(cash, r) == budget && BuyPrice(open, r) == price && FeeOn(budget, r) == budget * Fee(risk)
            && BuyQuantity(cash, open, r) == if price > 0.0 then Max(budget - budget * Fee(risk), 0.0) / price else 0.0
  {
  }

  lemma BudgetFits(cash: real, risk: Risk)
    requires cash >= 0.0
    ensures Budget(cash, Clamped(risk)) <= cash
  {
    BudgetWithin(cash, Clamped(risk));
  }

  lemma BoughtQuantity(spend: real, price: real)
    requires spend >= 0.0
    ensures var quantity := if price > 0.0 then spend / price else 0.0;
            && (quantity > 0.0 <==> price > 0.0 && spend > 0.0)
            && (quantity > 0.0 ==> quantity * price == spend)
  {
    if price > 0.0 {
      QuotientTimes(spend, price);
      QuotientSign(spend, price);
    }
  }

  lemma EnterFigures(a: Account, i: nat, rows: seq<Row>, risk: Risk)
    requires i + 1 < |rows| && rows[i].signal.Buy? && a.cash > 0.0 && a.quantity == 0.0
    ensures var x := Enter(a, i, rows[i + 1].open, Clamped(risk));
            var bought := rows[i + 1].open * (1.0 + Slippage(risk)) > 0.0
                          && a.cash * Size(risk) - a.cash * Size(risk) * Fee(risk) > 0.0;
            && (bought <==> x.orders != a.orders)
            && (bought ==> && |x.orders| == |a.orders| + 1 && x.orders[..|a.orders|] == a.orders
                           && AsSignalled(x.orders[|a.orders|], rows, risk, a.cash) && x.orders[|a.orders|].signalRow == i
                           && x.orders[|a.orders|].side.BuySide?)
            && (!bought ==> x == a)
  {
    hide Budget;
    hide BuyPrice;
    hide FeeOn;
    hide BuyQuantity;
    hide Clamped;
    hide Size;
    hide Fee;
    hide Slippage;
    var open := rows[i + 1].open;
    var budget := a.cash * Size(risk);
    BudgetFits(a.cash, risk);
    BuyReads(a.cash, open, risk);
    BoughtQuantity(Max(budget - budget * Fee(risk), 0.0), open * (1.0 + Slippage(risk)));
    hide Enter;
  }

  lemma QuotientSign(x: real, d: real)
    requires d > 0.0 && x >= 0.0
    ensures x / d > 0.0 <==> x > 0.0
  {
  }

  lemma LeaveFigures(a: Account, i: nat, rows: seq<Row>, risk: Risk, cash: real)
    requires i + 1 < |rows| && rows[i].signal.Sell? && a.quantity > 0.0
    ensures var x := Leave(a, i, rows[i + 1].open, Clamped(risk));
            && |x.orders| == |a.orders| + 1 && x.orders[..|a.orders|] == a.orders
            && AsSignalled(x.orders[|a.orders|], rows, risk, cash) && x.orders[|a.orders|].signalRow == i
            && x.orders[|a.orders|].side.SellSide?
  {
  }

  // What is known in front of row i.
  predicate Ready(a: Account, rows: seq<Row>, risk: Risk) {
    && AllAsSignalled(a.orders, rows, risk) && a.realized == PnlOf(a.orders)
    && a.cash + a.entryCost == risk.initialCash + a.realized && a.quantity >= 0.0
    && (a.quantity == 0.0 ==> a.entryCost == 0.0)
  }

  lemma PnlNext(orders: seq<Order>, o: Order)
    ensures PnlOf(orders + [o]) == PnlOf(orders) + o.pnl
  {
    assert (orders + [o])[..|orders|] == orders;
  }

  lemma OneMoreOrder(a: Account, x: Account, rows: seq<Row>, risk: Risk)
    requires AllAsSignalled(a.orders, rows, risk)
    requires |x.orders| == |a.orders| + 1 && x.orders[..|a.orders|] == a.orders
    requires AsSignalled(x.orders[|a.orders|], rows, risk, risk.initialCash + PnlOf(a.orders))
    ensures AllAsSignalled(x.orders, rows, risk) && PnlOf(x.orders) == PnlOf(a.orders) + x.orders[|a.orders|].pnl
  {
    hide AsSignalled;
    hide PnlOf;
    var n, o := |a.orders|, x.orders[|a.orders|];
    assert x.orders == a.orders + [o];
    PnlNext(a.orders, o);
    forall i | 0 <= i < |x.orders| ensures AsSignalled(x.orders[i], rows, risk, risk.initialCash + PnlOf(x.orders[..i])) {
      if i < n {
        assert x.orders[..i] == a.orders[..i] && x.orders[i] == a.orders[i];
      }
    }
  }

  // The conditions under which row i places an order.
  predicate Buys(a: Account, i: nat, rows: seq<Row>, risk: Risk) {
    && i + 1 < |rows| && rows[i].signal.Buy? && |a.orders| % 2 == 0 && a.cash > 0.0
    && rows[i + 1].open * (1.0 + Slippage(risk)) > 0.0
    && a.cash * Size(risk) - a.cash * Size(risk) * Fee(risk) > 0.0
  }

  predicate Sells(a: Account, i: nat, rows: seq<Row>) {
    i + 1 < |rows| && rows[i].signal.Sell? && |a.orders| % 2 == 1
  }

  // One trade adds at most one order, and that one as signalled.
  predicate Follows(a: Account, x: Account, i: nat, rows: seq<Row>, risk: Risk) {
    && AllAsSignalled(x.orders, rows, risk) && x.realized == PnlOf(x.orders)
    && |x.orders| == |a.orders| + (if Buys(a, i, rows, risk) || Sells(a, i, rows) then 1 else 0)
    && (Buys(a, i, rows, risk) || Sells(a, i, rows) ==> x.orders[|a.orders|].signalRow == i)
    && a.orders <= x.orders
  }

  lemma NewOrderFollows(a: Account, x: Account, i: nat, rows: seq<Row>, risk: Risk)
    requires Ready(a, rows, risk) && (Buys(a, i, rows, risk) || Sells(a, i, rows))
    requires |x.orders| == |a.orders| + 1 && x.orders[..|a.orders|] == a.orders && x.orders[|a.orders|].signalRow == i
    requires AsSignalled(x.orders[|a.orders|], rows, risk, risk.initialCash + PnlOf(a.orders))
    requires x.realized == a.realized + x.orders[|a.orders|].pnl
    ensures Follows(a, x, i, rows, risk)
  {
    hide AsSignalled;
    hide PnlOf;
    hide AllAsSignalled;
    hide Buys;
    hide Sells;
    OneMoreOrder(a, x, rows, risk);
  }

  lemma BuyFollows(a: Account, i: nat, rows: seq<Row>, risk: Risk)
    requires i + 1 < |rows| && Ready(a, rows, risk) && rows[i].signal.Buy? && a.quantity == 0.0 && a.cash > 0.0
    requires |a.orders| % 2 == 0
    ensures Follows(a, Enter(a, i, rows[i + 1].open, Clamped(risk)), i, rows, risk)
  {
    EnterFigures(a, i, rows, risk);
    var x := Enter(a, i, rows[i + 1].open, Clamped(risk));
    hide Enter;
    hide Clamped;
    hide Size;
    hide Fee;
    hide Slippage;
    hide AllAsSignalled;
    hide PnlOf;
    if Buys(a, i, rows, risk) {
      hide AsSignalled;
      NewOrderFollows(a, x, i, rows, risk);
    }
  }

  lemma SellFollows(a: Account, i: nat, rows: seq<Row>, risk: Risk)
    requires i + 1 < |rows| && Ready(a, rows, risk) && rows[i].signal.Sell? && a.quantity > 0.0 && |a.orders| % 2 == 1
    ensures Follows(a, Leave(a, i, rows[i + 1].open, Clamped(risk)), i, rows, risk)
  {
    LeaveFigures(a, i, rows, risk, risk.initialCash + a.realized);
    hide Leave;
    hide Clamped;
    hide AsSignalled;
    hide PnlOf;
    hide AllAsSignalled;
    NewOrderFollows(a, Leave(a, i, rows[i + 1].open, Clamped(risk)), i, rows, risk);
  }

  lemma TradeFollows(a: Account, i: nat, rows: seq<Row>, risk: Risk)
    requires i + 1 < |rows| && Ready(a, rows, risk) && (a.quantity > 0.0 <==> |a.orders| % 2 == 1)
    ensures Follows(a, Trade(a, i, rows[i].signal, rows[i + 1].open, Clamped(risk)), i, rows, risk)
  {
    hide Enter;
    hide Leave;
    hide Clamped;
    hide AllAsSignalled;
    hide PnlOf;
    hide Size;
    hide Fee;
    hide Slippage;
    if rows[i].signal.Buy? && a.quantity == 0.0 && a.cash > 0.0 {
      BuyFollows(a, i, rows, risk);
    } else if rows[i].signal.Sell? && a.quantity > 0.0 {
      SellFollows(a, i, rows, risk);
    }
  }

  lemma MarkReads(a: Account, close: real)
    ensures Mark(a, close).orders == a.orders && Mark(a, close).realized == a.realized
    ensures Mark(a, close).cash == a.cash && Mark(a, close).quantity == a.quantity
  {
  }

  lemma SoundReads(a: Account, n: nat, risk: Risk)
    requires MoneySound(a, Clamped(risk)) && OrdersSound(a, n)
    ensures a.cash + a.entryCost == risk.initialCash + a.realized && a.quantity >= 0.0
    ensures a.quantity == 0.0 ==> a.entryCost == 0.0
    ensures a.quantity > 0.0 <==> |a.orders| % 2 == 1
  {
    hide SumWins;
    hide SumLosses;
    hide Alternates;
    hide ClosesItsEntry;
    hide SignalsBefore;
  }

  lemma NothingReady(risk: Risk, rows: seq<Row>)
    ensures Ready(Start(Clamped(risk)), rows, risk)
  {
  }

  // In front of every row of every run.
  lemma {:induction false} AccountIsReady(rows: seq<Row>, n: nat, risk: Risk)
    requires n <= |rows|
    ensures Ready(Play(rows, n, Clamped(risk)), rows, risk)
  {
    hide Play;
    hide Clamped;
    hide Trade;
    hide Mark;
    hide Start;
    hide AllAsSignalled;
    hide PnlOf;
    hide MoneySound;
    hide OrdersSound;
    var r := Clamped(risk);
    AccountIsSound(rows, n, risk);
    SoundReads(Play(rows, n, r), n, risk);
    if n == 0 {
      PlayStarts(rows, r);
      NothingReady(risk, rows);
    } else {
      AccountIsSound(rows, n - 1, risk);
      AccountIsReady(rows, n - 1, risk);
      PlayNext(rows, n - 1, r);
      var a, row := Play(rows, n - 1, r), rows[n - 1];
      SoundReads(a, n - 1, risk);
      if n < |rows| {
        TradeFollows(a, n - 1, rows, risk);
        MarkReads(Trade(a, n - 1, row.signal, rows[n].open, r), row.close);
      } else {
        MarkReads(a, row.close);
      }
    }
  }

  lemma PlayStarts(rows: seq<Row>, r: Risk)
    ensures Play(rows, 0, r) == Start(r)
  {
  }

  // Every order of a finished run follows its signal at the next candle's open, with
  // slippage, fee and size as set.
  lemma OrdersFollowTheCandles(rows: seq<Row>, risk: Risk, i: nat)
    requires |rows| >= 30 && i < |ResultOf(rows, risk).account.orders|
    ensures var orders := ResultOf(rows, risk).account.orders;
            AsSignalled(orders[i], rows, risk, risk.initialCash + PnlOf(orders[..i]))
  {
    AccountIsReady(rows, |rows|, risk);
    hide AsSignalled;
  }

  // A row places an order exactly when its signal can be executed.
  lemma RowTradesExactlyWhen(rows: seq<Row>, n: nat, risk: Risk)
    requires n < |rows|
    ensures var a, x := Play(rows, n, Clamped(risk)), Play(rows, n + 1, Clamped(risk));
            && a.orders <= x.orders
            && |x.orders| == |a.orders| + (if Buys(a, n, rows, risk) || Sells(a, n, rows) then 1 else 0)
            && (|x.orders| > |a.orders| ==> x.orders[|a.orders|].signalRow == n)
  {
    hide Play;
    hide Trade;
    hide Mark;
    hide Clamped;
    hide AllAsSignalled;
    hide PnlOf;
    hide MoneySound;
    hide OrdersSound;
    var r := Clamped(risk);
    AccountIsSound(rows, n, risk);
    SoundReads(Play(rows, n, r), n, risk);
    AccountIsReady(rows, n, risk);
    PlayNext(rows, n, r);
    var a, row := Play(rows, n, r), rows[n];
    if n + 1 < |rows| {
      TradeFollows(a, n, rows, risk);
      MarkReads(Trade(a, n, row.signal, rows[n + 1].open, r), row.close);
    } else {
      MarkReads(a, row.close);
    }
  }

  lemma LastPoint(a: Account, close: real)
    ensures var m, n := Mark(a, close), |a.curve|;
            && |m.curve| == n + 1 && m.curve[..n] == a.curve
            && m.curve[n].cash == m.cash && m.curve[n].quantity == m.quantity
            && m.curve[n].equity == m.cash + m.quantity * close
  {
    hide Drawdown;
  }

  // Each equity point values the account after its row at the row's close.
  lemma {:induction false} PointsMarkToMarket(rows: seq<Row>, n: nat, k: nat, risk: Risk)
    requires k < n <= |rows|
    ensures |Play(rows, n, Clamped(risk)).curve| == n
    ensures var p, a := Play(rows, n, Clamped(risk)).curve[k], Play(rows, k + 1, Clamped(risk));
            p.cash == a.cash && p.quantity == a.quantity && p.equity == a.cash + a.quantity * rows[k].close
  {
    hide Clamped;
    hide Trade;
    hide Play;
    hide Mark;
    var r := Clamped(risk);
    PlayLengths(rows, n, r);
    PlayLengths(rows, n - 1, r);
    PlayNext(rows, n - 1, r);
    var a, row := Play(rows, n - 1, r), rows[n - 1];
    var t := if n < |rows| then Trade(a, n - 1, row.signal, rows[n].open, r) else a;
    if n < |rows| {
      TradeKeepsCurve(a, n - 1, row.signal, rows[n].open, r);
    }
    LastPoint(t, row.close);
    if k < n - 1 {
      PointsMarkToMarket(rows, n - 1, k, risk);
      assert Play(rows, n, r).curve[k] == Play(rows, n, r).curve[..n - 1][k];
    }
  }

  predicate PnlsListed(a: Account) {
    |a.pnls| == |a.orders| / 2 && forall k: nat | k < |a.pnls| :: a.pnls[k] == a.orders[2 * k + 1].pnl
  }

  lemma TradeListsPnls(a: Account, i: nat, signal: Signal, next: real, r: Risk)
    requires PnlsListed(a) && a.quantity >= 0.0 && (a.quantity > 0.0 <==> |a.orders| % 2 == 1)
    ensures PnlsListed(Trade(a, i, signal, next, r))
  {
    hide BuyPrice;
    hide SellPrice;
    hide BuyQuantity;
    hide Budget;
    hide FeeOn;
    hide Gross;
  }

  // The closed pnls of the report are those of its SELL orders.
  lemma {:induction false} ClosedPnls(rows: seq<Row>, n: nat, risk: Risk)
    requires n <= |rows|
    ensures PnlsListed(Play(rows, n, Clamped(risk)))
  {
    hide Play;
    hide Clamped;
    hide Trade;
    hide MoneySound;
    hide OrdersSound;
    var r := Clamped(risk);
    if n == 0 {
      PlayStarts(rows, r);
    } else {
      ClosedPnls(rows, n - 1, risk);
      AccountIsSound(rows, n - 1, risk);
      PlayNext(rows, n - 1, r);
      var a, row := Play(rows, n - 1, r), rows[n - 1];
      SoundReads(a, n - 1, risk);
      if n < |rows| {
        TradeListsPnls(a, n - 1, row.signal, rows[n].open, r);
      }
    }
  }

  lemma {:induction false} WinsAreCounted(pnls: seq<real>)
    ensures CountWins(pnls) == |set k: nat | k < |pnls| && pnls[k] > 0.0|
  {
    if pnls != [] {
      var n := |pnls| - 1;
      WinsAreCounted(pnls[..n]);
      var all, front := set k: nat | k < |pnls| && pnls[k] > 0.0, set k: nat | k < n && pnls[..n][k] > 0.0;
      assert all == if pnls[n] > 0.0 then front + {n} else front;
    }
  }
}
