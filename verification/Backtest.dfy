/** The backtest engine: one pass over candles with given signals, cash and one
    position at a time, orders executed at the next candle's open. */
module Backtest {
  import opened Basics

  datatype Signal = Buy | Sell | Hold

  // A candle with the signal the strategy attached to it.
  datatype Row = Row(open: real, close: real, signal: Signal)

  datatype Risk = Risk(initialCash: real, positionSize: real, feeRate: real, slippageRate: real)

  datatype Order = Order(signalRow: nat, side: Side, price: real, quantity: real,
                         amount: real, fee: real, pnl: real)

  datatype Point = Point(equity: real, cash: real, quantity: real, drawdown: real)

  datatype Account = Account(cash: real, quantity: real, entryCost: real, realized: real,
                             peak: real, orders: seq<Order>, pnls: seq<real>, curve: seq<Point>)

  datatype Result = TooFewCandles
                  | Finished(account: Account, finalEquity: real, mdd: real,
                             grossProfit: real, grossLoss: real, tradeCount: nat, wins: nat)

  const MIN_CANDLES := 30

  function Abs(x: real): real { if x < 0.0 then -x else x }

  // The risk settings after their defaults and clamps.
  function Clamped(r: Risk): Risk {
    Risk(r.initialCash, Min(Max(r.positionSize, 0.0), 1.0), Max(r.feeRate, 0.0), Max(r.slippageRate, 0.0))
  }

  predicate Settled(r: Risk) {
    0.0 <= r.positionSize <= 1.0 && 0.0 <= r.feeRate && 0.0 <= r.slippageRate
  }

  function Start(r: Risk): Account {
    Account(r.initialCash, 0.0, 0.0, 0.0, r.initialCash, [], [], [])
  }

  function BuyPrice(open: real, r: Risk): real { open * (1.0 + r.slippageRate) }

  function SellPrice(open: real, r: Risk): real { open * (1.0 - r.slippageRate) }

  function Budget(cash: real, r: Risk): real { cash * r.positionSize }

  function FeeOn(amount: real, r: Risk): real { amount * r.feeRate }

  function Gross(quantity: real, price: real): real { quantity * price }

  function BuyQuantity(cash: real, open: real, r: Risk): real {
    var price, budget := BuyPrice(open, r), Budget(cash, r);
    if price > 0.0 then Max(budget - FeeOn(budget, r), 0.0) / price else 0.0
  }

  function Enter(a: Account, i: nat, next: real, r: Risk): Account {
    var budget, quantity := Budget(a.cash, r), BuyQuantity(a.cash, next, r);
    if budget <= a.cash && quantity > 0.0 then
      a.(cash := Max(a.cash - budget, 0.0), quantity := quantity, entryCost := budget,
         orders := a.orders + [Order(i, BuySide, BuyPrice(next, r), quantity, budget, FeeOn(budget, r), 0.0)])
    else a
  }

  function Leave(a: Account, i: nat, next: real, r: Risk): Account {
    var price := SellPrice(next, r);
    var gross := Gross(a.quantity, price);
    var net := Max(gross - FeeOn(gross, r), 0.0);
    var pnl := net - a.entryCost;
    a.(cash := a.cash + net, quantity := 0.0, entryCost := 0.0, realized := a.realized + pnl,
       pnls := a.pnls + [pnl],
       orders := a.orders + [Order(i, SellSide, price, a.quantity, gross, FeeOn(gross, r), pnl)])
  }

  // The trade of row i, if its signal is executable at the next candle's open.
  function Trade(a: Account, i: nat, signal: Signal, next: real, r: Risk): Account {
    if signal.Buy? && a.quantity == 0.0 && a.cash > 0.0 then Enter(a, i, next, r)
    else if signal.Sell? && a.quantity > 0.0 then Leave(a, i, next, r)
    else a
  }

  function Drawdown(equity: real, peak: real): real {
    if peak != 0.0 then (equity - peak) / peak else 0.0
  }

  function Mark(a: Account, close: real): Account {
    var equity := a.cash + Gross(a.quantity, close);
    var peak := Max(a.peak, equity);
    a.(peak := peak, curve := a.curve + [Point(equity, a.cash, a.quantity, Drawdown(equity, peak))])
  }

  function StepRow(a: Account, rows: seq<Row>, i: nat, r: Risk): Account
    requires i < |rows|
  {
    var traded := if i + 1 < |rows| then Trade(a, i, rows[i].signal, rows[i + 1].open, r) else a;
    Mark(traded, rows[i].close)
  }

  // The account after the first n rows of a run over all of `rows`.
  function Play(rows: seq<Row>, n: nat, r: Risk): Account
    requires n <= |rows|
  {
    if n == 0 then Start(r) else StepRow(Play(rows, n - 1, r), rows, n - 1, r)
  }

  // ----- metrics

  function SumWins(pnls: seq<real>): real {
    if pnls == [] then 0.0 else SumWins(pnls[..|pnls| - 1]) + Max(pnls[|pnls| - 1], 0.0)
  }

  function SumLosses(pnls: seq<real>): real {
    if pnls == [] then 0.0 else SumLosses(pnls[..|pnls| - 1]) + Min(pnls[|pnls| - 1], 0.0)
  }

  function CountWins(pnls: seq<real>): nat {
    if pnls == [] then 0 else CountWins(pnls[..|pnls| - 1]) + if pnls[|pnls| - 1] > 0.0 then 1 else 0
  }

  // The smallest drawdown of the curve.
  function Worst(curve: seq<Point>): real
    requires curve != []
  {
    var last := curve[|curve| - 1].drawdown;
    if |curve| == 1 then last else Min(Worst(curve[..|curve| - 1]), last)
  }

  function ResultOf(rows: seq<Row>, risk: Risk): Result {
    if |rows| < MIN_CANDLES then TooFewCandles
    else
      var a := Play(rows, |rows|, Clamped(risk));
      PlayLengths(rows, |rows|, Clamped(risk));
      Finished(a, a.curve[|rows| - 1].equity, Abs(Worst(a.curve)),
               SumWins(a.pnls), Abs(SumLosses(a.pnls)), |a.orders|, CountWins(a.pnls))
  }

  lemma {:induction false} PlayLengths(rows: seq<Row>, n: nat, r: Risk)
    requires n <= |rows|
    ensures |Play(rows, n, r).curve| == n
  {
    if n > 0 {
      PlayLengths(rows, n - 1, r);
    }
  }

  method RunBacktest(rows: seq<Row>, risk: Risk) returns (result: Result)
    ensures result == ResultOf(rows, risk)
    ensures result.TooFewCandles? <==> |rows| < 30
  {
    if |rows| < MIN_CANDLES {
      return TooFewCandles;
    }
    var r := Clamped(risk);
    var account := ReplayRows(rows, r);
    PlayLengths(rows, |rows|, r);
    var worst := WorstDrawdown(account.curve);
    var profit, loss, wins := SumPnls(account.pnls);
    result := Finished(account, account.curve[|rows| - 1].equity, Abs(worst),
                       profit, Abs(loss), |account.orders|, wins);
  }

  lemma PlayNext(rows: seq<Row>, n: nat, r: Risk)
    requires n < |rows|
    ensures Play(rows, 0, r) == Start(r)
    ensures Play(rows, n + 1, r) == StepRow(Play(rows, n, r), rows, n, r)
  {
  }

  method ReplayRows(rows: seq<Row>, r: Risk) returns (account: Account)
    ensures account == Play(rows, |rows|, r)
  {
    var cash, quantity, entryCost, realized, peak := r.initialCash, 0.0, 0.0, 0.0, r.initialCash;
    var orders: seq<Order> := [];
    var pnls: seq<real> := [];
    var curve: seq<Point> := [];
    for index := 0 to |rows|
      invariant Account(cash, quantity, entryCost, realized, peak, orders, pnls, curve) == Play(rows, index, r)
    {
      hide Play;
      hide Budget;
      hide FeeOn;
      hide Gross;
      hide BuyPrice;
      hide SellPrice;
      hide BuyQuantity;
      hide Drawdown;
      PlayNext(rows, index, r);
      var row := rows[index];
      if index + 1 < |rows| && row.signal == Buy && quantity == 0.0 && cash > 0.0 {
        var next := rows[index + 1].open;
        var budget := Budget(cash, r);
        var bought := BuyQuantity(cash, next, r);
        if budget <= cash && bought > 0.0 {
          orders := orders + [Order(index, BuySide, BuyPrice(next, r), bought, budget, FeeOn(budget, r), 0.0)];
          cash := Max(cash - budget, 0.0);
          quantity := bought;
          entryCost := budget;
        }
      } else if index + 1 < |rows| && row.signal == Sell && quantity > 0.0 {
        var price := SellPrice(rows[index + 1].open, r);
        var gross := Gross(quantity, price);
        var fee := FeeOn(gross, r);
        var net := Max(gross - fee, 0.0);
        var pnl := net - entryCost;
        cash := cash + net;
        realized := realized + pnl;
        pnls := pnls + [pnl];
        orders := orders + [Order(index, SellSide, price, quantity, gross, fee, pnl)];
        quantity := 0.0;
        entryCost := 0.0;
      }
      var equity := cash + Gross(quantity, row.close);
      peak := Max(peak, equity);
      curve := curve + [Point(equity, cash, quantity, Drawdown(equity, peak))];
    }
    account := Account(cash, quantity, entryCost, realized, peak, orders, pnls, curve);
  }

  method WorstDrawdown(curve: seq<Point>) returns (worst: real)
    requires curve != []
    ensures worst == Worst(curve)
  {
    worst := curve[0].drawdown;
    for i := 1 to |curve|
      invariant worst == Worst(curve[..i])
    {
      assert curve[..i + 1][..i] == curve[..i];
      worst := Min(worst, curve[i].drawdown);
    }
    assert curve[..|curve|] == curve;
  }

  method SumPnls(pnls: seq<real>) returns (profit: real, loss: real, wins: nat)
    ensures profit == SumWins(pnls) && loss == SumLosses(pnls) && wins == CountWins(pnls)
  {
    profit, loss, wins := 0.0, 0.0, 0;
    for i := 0 to |pnls|
      invariant profit == SumWins(pnls[..i]) && loss == SumLosses(pnls[..i]) && wins == CountWins(pnls[..i])
    {
      assert pnls[..i + 1][..i] == pnls[..i];
      if pnls[i] > 0.0 {
        profit, wins := profit + pnls[i], wins + 1;
      } else {
        loss := loss + pnls[i];
      }
    }
    assert pnls[..|pnls|] == pnls;
  }
}

/** Accounting, causality and drawdown of the backtest. */
module BacktestLaws {
  import opened Backtest
  import opened Basics

  // ----- accounting identity and order discipline

  predicate Alternates(orders: seq<Order>) {
    forall i | 0 <= i < |orders| :: orders[i].side == if i % 2 == 0 then BuySide else SellSide
  }

  // Each SELL closes exactly what the BUY in front of it bought.
  predicate ClosesItsEntry(orders: seq<Order>) {
    forall i | 0 <= i < |orders| && i % 2 == 1 ::
      && orders[i].quantity == orders[i - 1].quantity
      && orders[i - 1].signalRow < orders[i].signalRow
      && orders[i].pnl == Max(orders[i].amount - orders[i].fee, 0.0) - orders[i - 1].amount
  }

  predicate MoneySound(a: Account, r: Risk) {
    && a.cash + a.entryCost == r.initialCash + a.realized
    && a.quantity >= 0.0 && a.entryCost >= 0.0
    && (r.initialCash >= 0.0 ==> a.cash >= 0.0)
    && (a.quantity == 0.0 ==> a.entryCost == 0.0)
    && SumWins(a.pnls) + SumLosses(a.pnls) == a.realized
  }

  predicate OrdersSound(a: Account, n: nat) {
    && (a.quantity > 0.0 <==> |a.orders| % 2 == 1)
    && (a.quantity > 0.0 ==> a.orders[|a.orders| - 1].quantity == a.quantity
                             && a.orders[|a.orders| - 1].amount == a.entryCost)
    && Alternates(a.orders) && ClosesItsEntry(a.orders)
    && |a.pnls| == |a.orders| / 2
    && SignalsBefore(a.orders, n)
  }

  predicate SignalsBefore(orders: seq<Order>, n: nat) {
    forall i | 0 <= i < |orders| :: orders[i].signalRow < n
  }

  lemma BudgetWithin(cash: real, r: Risk)
    requires 0.0 <= r.positionSize <= 1.0 && cash >= 0.0
    ensures 0.0 <= Budget(cash, r) <= cash
  {
  }

  lemma LastPnl(pnls: seq<real>, pnl: real)
    ensures SumWins(pnls + [pnl]) + SumLosses(pnls + [pnl]) == SumWins(pnls) + SumLosses(pnls) + pnl
  {
    assert (pnls + [pnl])[..|pnls|] == pnls;
  }

  lemma TradeKeepsMoney(a: Account, i: nat, signal: Signal, next: real, r: Risk)
    requires Settled(r) && MoneySound(a, r)
    ensures MoneySound(Trade(a, i, signal, next, r), r)
  {
    hide FeeOn;
    hide Gross;
    hide BuyPrice;
    hide SellPrice;
    hide BuyQuantity;
    hide Budget;
    if signal.Buy? && a.quantity == 0.0 && a.cash > 0.0 {
      BudgetWithin(a.cash, r);
    } else if signal.Sell? && a.quantity > 0.0 {
      LastPnl(a.pnls, Trade(a, i, signal, next, r).realized - a.realized);
    }
  }

  lemma EnterKeepsOrders(a: Account, i: nat, next: real, r: Risk)
    requires a.quantity == 0.0 && OrdersSound(a, i)
    ensures OrdersSound(Enter(a, i, next, r), i + 1)
  {
    hide FeeOn;
    hide BuyPrice;
    hide BuyQuantity;
    hide Budget;
  }

  lemma LeaveKeepsOrders(a: Account, i: nat, next: real, r: Risk)
    requires a.quantity > 0.0 && OrdersSound(a, i)
    ensures OrdersSound(Leave(a, i, next, r), i + 1)
  {
    hide FeeOn;
    hide Gross;
    hide SellPrice;
  }

  lemma TradeKeepsOrders(a: Account, i: nat, signal: Signal, next: real, r: Risk)
    requires a.quantity >= 0.0 && OrdersSound(a, i)
    ensures OrdersSound(Trade(a, i, signal, next, r), i + 1)
  {
    hide Enter;
    hide Leave;
    MoreRows(a, i);
    hide OrdersSound;
    if signal.Buy? && a.quantity == 0.0 && a.cash > 0.0 {
      EnterKeepsOrders(a, i, next, r);
    } else if signal.Sell? && a.quantity > 0.0 {
      LeaveKeepsOrders(a, i, next, r);
    }
  }

  lemma MarkKeepsSound(a: Account, close: real, r: Risk, n: nat)
    ensures MoneySound(Mark(a, close), r) <==> MoneySound(a, r)
    ensures OrdersSound(Mark(a, close), n) <==> OrdersSound(a, n)
  {
    hide Drawdown;
    hide Gross;
    hide Alternates;
    hide ClosesItsEntry;
    hide SignalsBefore;
  }

  lemma NotNegative(a: Account, r: Risk)
    requires MoneySound(a, r)
    ensures a.quantity >= 0.0
  {
  }

  lemma StartIsSound(r: Risk)
    ensures MoneySound(Start(r), r) && OrdersSound(Start(r), 0)
  {
  }

  lemma MoreRows(a: Account, n: nat)
    requires OrdersSound(a, n)
    ensures OrdersSound(a, n + 1)
  {
  }

  // At every row of every run.
  lemma {:induction false} AccountIsSound(rows: seq<Row>, n: nat, risk: Risk)
    requires n <= |rows|
    ensures MoneySound(Play(rows, n, Clamped(risk)), Clamped(risk))
    ensures OrdersSound(Play(rows, n, Clamped(risk)), n)
  {
    hide Trade;
    hide Mark;
    hide MoneySound;
    hide OrdersSound;
    var r := Clamped(risk);
    if n == 0 {
      StartIsSound(r);
    } else {
      AccountIsSound(rows, n - 1, risk);
      var a, row := Play(rows, n - 1, r), rows[n - 1];
      if n < |rows| {
        NotNegative(a, r);
        TradeKeepsMoney(a, n - 1, row.signal, rows[n].open, r);
        TradeKeepsOrders(a, n - 1, row.signal, rows[n].open, r);
        MarkKeepsSound(Trade(a, n - 1, row.signal, rows[n].open, r), row.close, r, n);
      } else {
        MoreRows(a, n - 1);
        MarkKeepsSound(a, row.close, r, n);
      }
    }
  }

  lemma {:induction false} WinsAndLossesSigned(pnls: seq<real>)
    ensures SumWins(pnls) >= 0.0 && SumLosses(pnls) <= 0.0
  {
    if pnls != [] {
      WinsAndLossesSigned(pnls[..|pnls| - 1]);
    }
  }

  // What the finished report promises about its own totals.
  lemma ReportAddsUp(rows: seq<Row>, risk: Risk)
    requires |rows| >= MIN_CANDLES
    ensures var f := ResultOf(rows, risk);
            && f.grossProfit - f.grossLoss == f.account.realized
            && f.tradeCount == |f.account.orders|
            && Alternates(f.account.orders)
            && f.finalEquity == risk.initialCash + f.account.realized
                                - f.account.entryCost + Gross(f.account.quantity, rows[|rows| - 1].close)
  {
    hide Gross;
    hide Trade;
    hide Drawdown;
    hide Worst;
    hide Alternates;
    AccountIsSound(rows, |rows|, risk);
    WinsAndLossesSigned(Play(rows, |rows|, Clamped(risk)).pnls);
    PlayLengths(rows, |rows| - 1, Clamped(risk));
  }

  // ----- causality

  // Two runs that share their first n rows agree on the first n - 1 of them.
  lemma {:induction false} SharedPast(a: seq<Row>, b: seq<Row>, n: nat, m: nat, r: Risk)
    requires n <= |a| && n <= |b| && a[..n] == b[..n]
    requires m < n || (m == n == 0)
    ensures Play(a, m, r) == Play(b, m, r)
  {
    if m > 0 {
      SharedPast(a, b, n, m - 1, r);
      assert a[m - 1] == a[..n][m - 1] == b[..n][m - 1] == b[m - 1];
      assert a[m] == a[..n][m] == b[..n][m] == b[m];
    }
  }

  lemma StepExtends(a: Account, rows: seq<Row>, i: nat, r: Risk)
    requires i < |rows|
    ensures a.orders <= StepRow(a, rows, i, r).orders && a.curve <= StepRow(a, rows, i, r).curve
  {
    hide Budget;
    hide FeeOn;
    hide Gross;
    hide BuyPrice;
    hide SellPrice;
    hide BuyQuantity;
    hide Drawdown;
  }

  lemma {:induction false} PlayExtends(rows: seq<Row>, m: nat, n: nat, r: Risk)
    requires m <= n <= |rows|
    ensures Play(rows, m, r).orders <= Play(rows, n, r).orders
    ensures Play(rows, m, r).curve <= Play(rows, n, r).curve
  {
    hide Play;
    hide StepRow;
    if m < n {
      PlayExtends(rows, m, n - 1, r);
      PlayNext(rows, n - 1, r);
      StepExtends(Play(rows, n - 1, r), rows, n - 1, r);
    }
  }

  // The first rows of a longer run already fix its first orders and equity points.
  lemma Causality(rows: seq<Row>, n: nat, r: Risk)
    requires 0 < n <= |rows|
    ensures Play(rows[..n], n, r).orders <= Play(rows, |rows|, r).orders
    ensures var short, long := Play(rows[..n], n, r).curve, Play(rows, |rows|, r).curve;
            |short| == n && |long| == |rows| && short[..n - 1] == long[..n - 1]
  {
    SharedPast(rows[..n], rows, n, n - 1, r);
    PlayExtends(rows, n - 1, |rows|, r);
    PlayLengths(rows[..n], n, r);
    PlayLengths(rows, |rows|, r);
    PlayLengths(rows, n - 1, r);
    var past := Play(rows, n - 1, r).curve;
    assert Play(rows[..n], n, r).curve[..n - 1] == past;
    assert Play(rows, |rows|, r).curve[..n - 1] == past;
  }

  // ----- drawdown

  // The fall from level x to level y, as a share of x.
  function Fall(x: real, y: real): real {
    if x > 0.0 then (x - y) / x else 0.0
  }

  // The largest fall into y from any of the levels.
  function WorstFallInto(levels: seq<real>, y: real): real {
    if levels == [] then 0.0
    else Max(WorstFallInto(levels[..|levels| - 1], y), Fall(levels[|levels| - 1], y))
  }

  // The quadratic definition: the largest fall over all pairs i <= j.
  function PairwiseDrawdown(levels: seq<real>): real {
    if levels == [] then 0.0
    else Max(PairwiseDrawdown(levels[..|levels| - 1]), WorstFallInto(levels, levels[|levels| - 1]))
  }

  lemma {:induction false} WorstFallIsMaximum(levels: seq<real>, y: real)
    ensures forall i | 0 <= i < |levels| :: Fall(levels[i], y) <= WorstFallInto(levels, y)
    ensures WorstFallInto(levels, y) >= 0.0
    ensures WorstFallInto(levels, y) == 0.0
         || exists i :: 0 <= i < |levels| && Fall(levels[i], y) == WorstFallInto(levels, y)
  {
    if levels != [] {
      WorstFallIsMaximum(levels[..|levels| - 1], y);
    }
  }

  // PairwiseDrawdown is the maximum over all pairs of levels.
  lemma {:induction false} PairwiseIsMaximum(levels: seq<real>)
    ensures forall i, j | 0 <= i <= j < |levels| :: Fall(levels[i], levels[j]) <= PairwiseDrawdown(levels)
    ensures PairwiseDrawdown(levels) >= 0.0
    ensures PairwiseDrawdown(levels) == 0.0
         || exists i, j :: 0 <= i <= j < |levels| && Fall(levels[i], levels[j]) == PairwiseDrawdown(levels)
  {
    if levels != [] {
      var n := |levels| - 1;
      PairwiseIsMaximum(levels[..n]);
      WorstFallIsMaximum(levels, levels[n]);
    }
  }

  // Initial cash, then the equity of each row.
  function Levels(initial: real, curve: seq<Point>): seq<real> {
    if curve == [] then [initial]
    else Levels(initial, curve[..|curve| - 1]) + [curve[|curve| - 1].equity]
  }

  lemma FallFromHigher(x: real, p: real, y: real)
    requires 0.0 < x <= p && 0.0 <= y <= p
    ensures 0.0 <= Fall(p, y) <= 1.0
    ensures Fall(x, y) <= Fall(p, y)
  {
    assert y / p <= y / x by { QuotientShrinks(y, x, p); }
    assert Fall(x, y) == 1.0 - y / x by { FallAsQuotient(x, y); }
    assert Fall(p, y) == 1.0 - y / p by { FallAsQuotient(p, y); }
    assert 0.0 <= y / p <= 1.0;
  }

  lemma FallAsQuotient(x: real, y: real)
    requires x > 0.0
    ensures (x - y) / x == 1.0 - y / x
  {
    assert x / x == 1.0;
    assert (x - y) / x == x / x - y / x;
  }

  lemma QuotientShrinks(y: real, x: real, p: real)
    requires 0.0 < x <= p && 0.0 <= y
    ensures y / p <= y / x
  {
    var q := y / p;
    assert q >= 0.0;
    assert q * p == y;
    assert q * x <= y;
    assert q * x / x == q;
  }

  // With non-negative levels the fall from the running peak is the worst fall.
  lemma {:induction false} PeakGivesWorstFall(levels: seq<real>, peak: real, y: real)
    requires peak > 0.0 && 0.0 <= y <= peak
    requires forall i | 0 <= i < |levels| :: levels[i] <= peak
    requires peak in levels
    ensures WorstFallInto(levels, y) == Fall(peak, y)
  {
    WorstFallIsMaximum(levels, y);
    FallFromHigher(peak, peak, y);
    forall i | 0 <= i < |levels| ensures Fall(levels[i], y) <= Fall(peak, y) {
      if levels[i] > 0.0 {
        FallFromHigher(levels[i], peak, y);
      }
    }
  }

  predicate NonNegativeCloses(rows: seq<Row>) {
    forall i | 0 <= i < |rows| :: rows[i].close >= 0.0
  }

  // What the one-pass loop knows after n rows.
  predicate DrawdownSoFar(a: Account, initial: real) {
    var levels := Levels(initial, a.curve);
    && a.peak in levels
    && (forall i | 0 <= i < |levels| :: 0.0 <= levels[i] <= a.peak)
    && a.peak > 0.0
    && (a.curve != [] ==> Worst(a.curve) == -PairwiseDrawdown(levels))
    && (a.curve == [] ==> PairwiseDrawdown(levels) == 0.0)
    && PairwiseDrawdown(levels) <= 1.0
  }

  lemma LevelsAfterMark(a: Account, close: real, initial: real)
    ensures var m, y := Mark(a, close), a.cash + Gross(a.quantity, close);
            && Levels(initial, m.curve) == Levels(initial, a.curve) + [y]
            && m.curve == a.curve + [Point(y, a.cash, a.quantity, Drawdown(y, m.peak))]
            && m.peak == Max(a.peak, y)
            && Worst(m.curve) == if a.curve == [] then Drawdown(y, m.peak)
                                 else Min(Worst(a.curve), Drawdown(y, m.peak))
  {
    hide Gross;
    hide Drawdown;
    assert Mark(a, close).curve[..|a.curve|] == a.curve;
  }

  lemma MarkKeepsDrawdown(a: Account, close: real, initial: real)
    requires DrawdownSoFar(a, initial)
    requires a.cash + Gross(a.quantity, close) >= 0.0
    ensures DrawdownSoFar(Mark(a, close), initial)
  {
    hide Gross;
    hide Mark;
    hide Levels;
    hide Worst;
    hide WorstFallInto;
    var m, y := Mark(a, close), a.cash + Gross(a.quantity, close);
    var before := Levels(initial, a.curve);
    LevelsAfterMark(a, close, initial);
    var levels := before + [y];
    assert levels[..|before|] == before;
    assert m.peak in levels by {
      if m.peak == y {
        assert levels[|before|] == y;
      } else {
        var i :| 0 <= i < |before| && before[i] == a.peak;
        assert levels[i] == m.peak;
      }
    }
    PeakGivesWorstFall(levels, m.peak, y);
    FallFromHigher(m.peak, m.peak, y);
    assert Drawdown(y, m.peak) == -Fall(m.peak, y) by { NegatedQuotient(m.peak - y, m.peak); }
  }

  lemma NegatedQuotient(x: real, d: real)
    requires d != 0.0
    ensures (-x) / d == -(x / d)
  {
  }

  lemma TradeKeepsCurve(a: Account, i: nat, signal: Signal, next: real, r: Risk)
    ensures Trade(a, i, signal, next, r).curve == a.curve && Trade(a, i, signal, next, r).peak == a.peak
  {
  }

  lemma {:induction false} DrawdownInvariant(rows: seq<Row>, n: nat, risk: Risk)
    requires n <= |rows| && risk.initialCash > 0.0 && NonNegativeCloses(rows)
    ensures DrawdownSoFar(Play(rows, n, Clamped(risk)), risk.initialCash)
  {
    var r := Clamped(risk);
    hide Trade;
    hide Mark;
    hide Gross;
    hide DrawdownSoFar;
    if n == 0 {
      StartsWithoutDrawdown(r);
    } else {
      DrawdownInvariant(rows, n - 1, risk);
      AccountIsSound(rows, n - 1, risk);
      var a, row := Play(rows, n - 1, r), rows[n - 1];
      var t := if n < |rows| then Trade(a, n - 1, row.signal, rows[n].open, r) else a;
      if n < |rows| {
        TradeKeepsCurve(a, n - 1, row.signal, rows[n].open, r);
        TradeKeepsMoney(a, n - 1, row.signal, rows[n].open, r);
      }
      DrawdownReadsCurve(a, t, risk.initialCash);
      ValueNonNegative(t.quantity, row.close);
      MarkKeepsDrawdown(t, row.close, risk.initialCash);
    }
  }

  lemma ValueNonNegative(quantity: real, price: real)
    requires quantity >= 0.0 && price >= 0.0
    ensures Gross(quantity, price) >= 0.0
  {
  }

  lemma DrawdownReadsCurve(a: Account, b: Account, initial: real)
    requires DrawdownSoFar(a, initial) && a.curve == b.curve && a.peak == b.peak
    ensures DrawdownSoFar(b, initial)
  {
  }

  lemma StartsWithoutDrawdown(r: Risk)
    requires r.initialCash > 0.0
    ensures DrawdownSoFar(Start(r), r.initialCash)
  {
    StartLevels(r.initialCash);
  }

  lemma StartLevels(initial: real)
    ensures Levels(initial, []) == [initial] && PairwiseDrawdown([initial]) == 0.0
  {
    var levels := [initial];
    assert levels[..0] == [];
    assert Fall(initial, initial) == 0.0;
    assert WorstFallInto(levels[..0], initial) == 0.0;
    assert WorstFallInto(levels, initial) == 0.0;
    assert PairwiseDrawdown(levels[..0]) == 0.0;
  }

  // Without cash nothing is ever bought and the equity never moves.
  predicate Idle(a: Account, initial: real) {
    && a.cash == initial && a.quantity == 0.0 && a.peak == initial && a.orders == []
    && PairwiseDrawdown(Levels(initial, a.curve)) == 0.0
    && (forall i | 0 <= i < |Levels(initial, a.curve)| :: Levels(initial, a.curve)[i] == initial)
    && (a.curve != [] ==> Worst(a.curve) == 0.0)
  }

  lemma IdleLevels(levels: seq<real>, initial: real)
    requires initial <= 0.0 && PairwiseDrawdown(levels) == 0.0
    requires forall i | 0 <= i < |levels| :: levels[i] == initial
    ensures PairwiseDrawdown(levels + [initial]) == 0.0
  {
    var all := levels + [initial];
    assert all[..|levels|] == levels;
    WorstFallIsMaximum(all, initial);
    assert forall i | 0 <= i < |all| :: Fall(all[i], initial) == 0.0;
    hide WorstFallInto;
    assert WorstFallInto(all, initial) == 0.0;
  }

  lemma IdleMark(a: Account, close: real, initial: real)
    requires Idle(a, initial) && initial <= 0.0
    ensures Idle(Mark(a, close), initial)
  {
    hide Levels;
    hide Worst;
    hide PairwiseDrawdown;
    assert Gross(a.quantity, close) == 0.0;
    LevelsAfterMark(a, close, initial);
    IdleLevels(Levels(initial, a.curve), initial);
    assert Drawdown(initial, initial) == 0.0;
    assert Levels(initial, Mark(a, close).curve) == Levels(initial, a.curve) + [initial];
  }

  lemma {:induction false} NoCashIsIdle(rows: seq<Row>, n: nat, risk: Risk)
    requires n <= |rows| && risk.initialCash <= 0.0
    ensures Idle(Play(rows, n, Clamped(risk)), risk.initialCash)
  {
    var r := Clamped(risk);
    if n == 0 {
      StartLevels(r.initialCash);
    } else {
      hide Mark;
      hide Idle;
      NoCashIsIdle(rows, n - 1, risk);
      IdleMark(Play(rows, n - 1, r), rows[n - 1].close, risk.initialCash);
    }
  }

  // The reported maximum drawdown is the pairwise one and a share between 0 and 1.
  lemma OnePassDrawdownIsPairwise(rows: seq<Row>, risk: Risk)
    requires |rows| >= MIN_CANDLES && NonNegativeCloses(rows)
    ensures var f := ResultOf(rows, risk);
            && f.mdd == PairwiseDrawdown(Levels(risk.initialCash, f.account.curve))
            && 0.0 <= f.mdd <= 1.0
  {
    hide Play;
    hide Levels;
    hide Worst;
    hide PairwiseDrawdown;
    PlayLengths(rows, |rows|, Clamped(risk));
    PairwiseIsMaximum(Levels(risk.initialCash, Play(rows, |rows|, Clamped(risk)).curve));
    if risk.initialCash > 0.0 {
      DrawdownInvariant(rows, |rows|, risk);
    } else {
      NoCashIsIdle(rows, |rows|, risk);
    }
  }
}
