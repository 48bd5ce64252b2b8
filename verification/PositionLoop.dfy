/** The controlled position loop: sub-runs that buy one symbol, hold it and sell it
    against an exchange that may answer anything, merged into one report. */
module PositionLoop {
  import opened Basics

  // ----- what the exchange and the clock may answer

  datatype Reply<T> = Raises | Gives(value: T)

  // A submitted order's outcome, or a client order id refused as a duplicate.
  datatype Fill = DuplicateId | Placed(filled: bool, executed: real, amount: real, fee: real)

  datatype Decision = Decision(symbol: string, timeframe: string, tradeable: bool, edge: real, score: real,
                               price: real, ask: real, costRate: real)

  // One pass of the scan loop, while there is time left.
  datatype Scan = Scan(stop: bool, lossExceeded: bool, openOrder: bool, decide: (string, string) -> Decision)

  // One pass of the hold loop, while there is time left.
  datatype Tick = Tick(elapsed: int, stop: bool, bid: Reply<real>, lossExceeded: bool)

  datatype Script = Script(admitted: bool, scans: seq<Reply<Scan>>, buy: Reply<Fill>, ticks: seq<Tick>,
                           exitBid: Reply<real>, sell: Reply<Fill>, checksPass: Reply<bool>)

  // ----- reports

  datatype ExitReason = TimeStop | ManualStop | AccountingStop | TakeProfit | StopLoss

  datatype Status = Failed | Aborted | Stopped | PassedTrade | PassIdle

  datatype Order = Order(side: Side, symbol: string, volume: real, filled: bool)

  // `orders` are the requests sent; `exit` is meaningful once a SELL has filled.
  datatype SubReport = SubReport(status: Status, orders: seq<Order>, orderCount: nat, buyFilled: nat, sellFilled: nat,
                                 gross: real, fee: real, net: real, realized: real,
                                 symbol: string, timeframe: string, exit: ExitReason)

  const BLANK := SubReport(Failed, [], 0, 0, 0, 0.0, 0.0, 0.0, 0.0, "", "", TimeStop)

  const MIN_HOLD_SECONDS := 60
  const PROFIT_MARGIN := 0.001
  const STOP_LOSS_RATE := 0.003
  const MAX_ORDERS := 2
  const SYMBOLS := ["BTC", "ETH"]
  const TIMEFRAMES := ["3m", "5m", "15m"]

  // Rounded down to eight decimals; nothing for a non-positive value.
  function RoundVolume(value: real): real {
    if value <= 0.0 then 0.0 else (value * 100000000.0).Floor as real / 100000000.0
  }

  const VOLUME_STEP := 1.0 / 100000000.0

  // A volume of at least v rounds to the rounded volume v exactly while it is less than
  // one step above it.
  lemma RoundsToExactlyWhen(v: real, x: real, executed: real)
    requires v == RoundVolume(x) && v > 0.0
    ensures RoundVolume(executed) == v <==> v <= executed < v + VOLUME_STEP
  {
    var n, scaled := (x * 100000000.0).Floor, executed * 100000000.0;
    assert v * 100000000.0 == n as real;
    assert v <= executed < v + VOLUME_STEP <==> n as real <= scaled < n as real + 1.0;
    assert scaled.Floor == n <==> n as real <= scaled < n as real + 1.0;
  }

  // ----- choosing what to trade

  function Priority(d: Decision): int {
    if d.symbol == "ETH" && d.timeframe == "15m" then 0
    else if d.symbol == "BTC" && d.timeframe == "15m" then 1
    else if d.symbol == "ETH" && d.timeframe == "5m" then 2
    else if d.symbol == "BTC" && d.timeframe == "5m" then 3
    else if d.symbol == "ETH" && d.timeframe == "3m" then 4
    else if d.symbol == "BTC" && d.timeframe == "3m" then 5
    else 99
  }

  // The order of the candidate sort: priority, then larger edge, then larger score.
  predicate Preferred(a: Decision, b: Decision) {
    || Priority(a) < Priority(b)
    || (Priority(a) == Priority(b) && (a.edge > b.edge || (a.edge == b.edge && a.score > b.score)))
  }

  function DecisionFor(scan: Scan, symbol: string, timeframe: string): Decision {
    scan.decide(symbol, timeframe).(symbol := symbol, timeframe := timeframe)
  }

  function Better(best: Maybe<Decision>, d: Decision): Maybe<Decision> {
    if d.tradeable && (best.None? || Preferred(d, best.value)) then Some(d) else best
  }

  // The best so far after the first n timeframes of a symbol.
  function OverTimeframes(best: Maybe<Decision>, scan: Scan, symbol: string, n: nat): Maybe<Decision>
    requires n <= |TIMEFRAMES|
  {
    if n == 0 then best
    else Better(OverTimeframes(best, scan, symbol, n - 1), DecisionFor(scan, symbol, TIMEFRAMES[n - 1]))
  }

  // The first of the most preferred tradeable decisions.
  function BestOf(symbols: seq<string>, scan: Scan): Maybe<Decision> {
    if symbols == [] then None
    else OverTimeframes(BestOf(symbols[..|symbols| - 1], scan), scan, symbols[|symbols| - 1], |TIMEFRAMES|)
  }

  // The best tradeable decision over the given symbols and every timeframe.
  method ScanSymbols(symbols: seq<string>, scan: Scan) returns (best: Maybe<Decision>)
    ensures best == BestOf(symbols, scan)
    ensures best.Some? ==>
              && best.value.tradeable && best.value.symbol in symbols && best.value.timeframe in TIMEFRAMES
              && best.value == DecisionFor(scan, best.value.symbol, best.value.timeframe)
    ensures best.Some? ==> forall i, j | 0 <= i < |symbols| && 0 <= j < |TIMEFRAMES| ::
              DecisionFor(scan, symbols[i], TIMEFRAMES[j]).tradeable
              ==> !Preferred(DecisionFor(scan, symbols[i], TIMEFRAMES[j]), best.value)
    ensures best.None? ==> forall i, j | 0 <= i < |symbols| && 0 <= j < |TIMEFRAMES| ::
              !DecisionFor(scan, symbols[i], TIMEFRAMES[j]).tradeable
  {
    best := None;
    for i := 0 to |symbols|
      invariant best == BestOf(symbols[..i], scan)
      invariant best.Some? ==> Offered(best.value, symbols, scan)
      invariant forall k, j | 0 <= k < i && 0 <= j < |TIMEFRAMES| && DecisionFor(scan, symbols[k], TIMEFRAMES[j]).tradeable ::
                  best.Some? && !Preferred(DecisionFor(scan, symbols[k], TIMEFRAMES[j]), best.value)
    {
      assert symbols[..i + 1][..i] == symbols[..i];
      for j := 0 to |TIMEFRAMES|
        invariant best == OverTimeframes(BestOf(symbols[..i], scan), scan, symbols[i], j)
        invariant best.Some? ==> Offered(best.value, symbols, scan)
        invariant forall k, l | 0 <= k < i && 0 <= l < |TIMEFRAMES| && DecisionFor(scan, symbols[k], TIMEFRAMES[l]).tradeable ::
                    best.Some? && !Preferred(DecisionFor(scan, symbols[k], TIMEFRAMES[l]), best.value)
        invariant forall l | 0 <= l < j && DecisionFor(scan, symbols[i], TIMEFRAMES[l]).tradeable ::
                    best.Some? && !Preferred(DecisionFor(scan, symbols[i], TIMEFRAMES[l]), best.value)
      {
        var d := DecisionFor(scan, symbols[i], TIMEFRAMES[j]);
        if d.tradeable && (best.None? || Preferred(d, best.value)) {
          best := Some(d);
        }
      }
    }
    assert symbols[..|symbols|] == symbols;
  }

  // A tradeable decision of the scan for one of the symbols.
  predicate Offered(d: Decision, symbols: seq<string>, scan: Scan) {
    d.tradeable && d.symbol in symbols && d.timeframe in TIMEFRAMES && d == DecisionFor(scan, d.symbol, d.timeframe)
  }

  lemma {:induction false} TimeframesOffer(best: Maybe<Decision>, symbols: seq<string>, scan: Scan, symbol: string, n: nat)
    requires n <= |TIMEFRAMES| && symbol in symbols
    requires best.Some? ==> Offered(best.value, symbols, scan)
    ensures var after := OverTimeframes(best, scan, symbol, n); after.Some? ==> Offered(after.value, symbols, scan)
    ensures (best.Some? || exists j :: 0 <= j < n && DecisionFor(scan, symbol, TIMEFRAMES[j]).tradeable)
            ==> OverTimeframes(best, scan, symbol, n).Some?
  {
    hide Preferred;
    if n > 0 {
      TimeframesOffer(best, symbols, scan, symbol, n - 1);
    }
  }

  lemma {:induction false} BestIsOffered(symbols: seq<string>, scan: Scan)
    ensures BestOf(symbols, scan).Some? ==> Offered(BestOf(symbols, scan).value, symbols, scan)
    ensures symbols != [] && (forall symbol, frame :: scan.decide(symbol, frame).tradeable) ==> BestOf(symbols, scan).Some?
  {
    if symbols != [] {
      var front, last := symbols[..|symbols| - 1], symbols[|symbols| - 1];
      BestIsOffered(front, scan);
      assert forall x | x in front :: x in symbols;
      TimeframesOffer(BestOf(front, scan), symbols, scan, last, |TIMEFRAMES|);
      assert DecisionFor(scan, last, TIMEFRAMES[0]).tradeable == scan.decide(last, TIMEFRAMES[0]).tradeable;
    }
  }

  // ----- holding

  function MoveRate(mark: real, entry: real): real {
    if entry > 0.0 then (mark - entry) / entry else 0.0
  }

  datatype Hold = StayIn | Leave(reason: ExitReason) | HoldRaises

  function TickOutcome(t: Tick, entry: real, takeProfit: real): Hold {
    if t.stop then Leave(ManualStop)
    else if t.bid.Raises? then HoldRaises
    else if t.bid.value <= 0.0 then StayIn
    else if t.lossExceeded then Leave(AccountingStop)
    else if t.elapsed >= MIN_HOLD_SECONDS && MoveRate(t.bid.value, entry) >= takeProfit then Leave(TakeProfit)
    else if t.elapsed >= MIN_HOLD_SECONDS && MoveRate(t.bid.value, entry) <= -STOP_LOSS_RATE then Leave(StopLoss)
    else StayIn
  }

  function HoldOf(ticks: seq<Tick>, entry: real, takeProfit: real): (outcome: Hold)
    ensures !outcome.StayIn?
  {
    if ticks == [] then Leave(TimeStop)
    else
      var first := TickOutcome(ticks[0], entry, takeProfit);
      if first.StayIn? then HoldOf(ticks[1..], entry, takeProfit) else first
  }

  // The first tick that ends the hold decides; without one the time runs out.
  method HoldPosition(ticks: seq<Tick>, entry: real, takeProfit: real) returns (outcome: Hold)
    ensures outcome == HoldOf(ticks, entry, takeProfit)
    ensures outcome == Leave(TimeStop) ==> forall i | 0 <= i < |ticks| :: TickOutcome(ticks[i], entry, takeProfit) == StayIn
    ensures outcome != Leave(TimeStop) ==>
              exists i :: 0 <= i < |ticks| && TickOutcome(ticks[i], entry, takeProfit) == outcome
                && forall j | 0 <= j < i :: TickOutcome(ticks[j], entry, takeProfit) == StayIn
  {
    for i := 0 to |ticks|
      invariant forall j | 0 <= j < i :: TickOutcome(ticks[j], entry, takeProfit) == StayIn
      invariant HoldOf(ticks, entry, takeProfit) == HoldOf(ticks[i..], entry, takeProfit)
    {
      outcome := TickOutcome(ticks[i], entry, takeProfit);
      if !outcome.StayIn? {
        return;
      }
    }
    return Leave(TimeStop);
  }

  // ----- one sub-run

  function AddOrder(r: SubReport, side: Side, symbol: string, volume: real, f: Fill): SubReport {
    if f.DuplicateId? then r
    else r.(orders := r.orders + [Order(side, symbol, volume, f.filled)], orderCount := r.orderCount + 1,
            buyFilled := r.buyFilled + (if side.BuySide? && f.filled then 1 else 0),
            sellFilled := r.sellFilled + (if side.SellSide? && f.filled then 1 else 0))
  }

  predicate Filled(f: Fill) { f.Placed? && f.filled }

  function ApplyPnl(r: SubReport, bought: Fill, sold: Fill): SubReport
    requires bought.Placed? && sold.Placed?
  {
    var gross := sold.amount - bought.amount;
    var fee := bought.fee + sold.fee;
    r.(gross := r.gross + gross, fee := r.fee + fee, net := r.net + (gross - fee), realized := r.realized + (gross - fee))
  }

  // Closing a run: the checks decide only when no reason to stop was given.
  function Closed(r: SubReport, status: Status, reasons: bool, checks: Reply<bool>): SubReport {
    if checks.Raises? then r.(status := Failed)
    else if reasons then r.(status := status)
    else if !checks.value || r.orderCount > MAX_ORDERS then r.(status := Stopped)
    else r.(status := if r.orderCount > 0 then PassedTrade else PassIdle)
  }

  // What every sub-run keeps to, however the exchange behaves.
  predicate OrderDiscipline(r: SubReport) {
    && |r.orders| <= 2 && r.orderCount == |r.orders|
    && (|r.orders| >= 1 ==> r.orders[0].side == BuySide)
    && (|r.orders| == 2 ==> r.orders[1].side == SellSide && r.orders[0].filled && r.orders[0].symbol == r.orders[1].symbol)
  }

  // What a sub-run that passed with a trade reports.
  predicate TradeSound(r: SubReport, symbols: seq<string>) {
    && |r.orders| == 2 && r.orders[0].filled && r.orders[1].filled
    && r.orderCount == 2 && r.buyFilled == 1 && r.sellFilled == 1
    && r.net == r.gross - r.fee && r.realized == r.net
    && r.symbol == r.orders[0].symbol && r.symbol in symbols
  }

  // The same figures and volumes traced back to the two fills.
  ghost predicate TradeTraced(r: SubReport, s: Script, notional: real) {
    && s.buy.Gives? && Filled(s.buy.value) && s.sell.Gives? && Filled(s.sell.value)
    && r.gross == s.sell.value.amount - s.buy.value.amount
    && r.fee == s.buy.value.fee + s.sell.value.fee
    && |r.orders| == 2 && r.orders[0].volume > 0.0 && r.orders[1].volume == RoundVolume(s.buy.value.executed)
    && (exists d: Decision :: d.symbol == r.symbol && r.orders[0].volume == Requested(d, notional))
    && SellsAsRequestedExactlyWhen(r, s.buy.value.executed)
  }

  // The SELL asks for the volume the BUY asked for exactly when the BUY executed that
  // volume up to less than one step.
  predicate SellsAsRequestedExactlyWhen(r: SubReport, executed: real)
    requires |r.orders| == 2
  {
    SellsAsRequested(r) <==> ExecutedAsRequested(r, executed)
  }

  predicate SellsAsRequested(r: SubReport)
    requires |r.orders| == 2
  {
    r.orders[1].volume == r.orders[0].volume
  }

  predicate ExecutedAsRequested(r: SubReport, executed: real)
    requires |r.orders| == 2
  {
    r.orders[0].volume <= executed < r.orders[0].volume + VOLUME_STEP
  }

  function QuotedPrice(d: Decision): real { if d.price > 0.0 then d.price else d.ask }

  // The volume a BUY of the notional asks for.
  function Requested(d: Decision, notional: real): real {
    if QuotedPrice(d) > 0.0 then RoundVolume(notional / QuotedPrice(d)) else 0.0
  }

  function EntryPrice(bought: Fill, d: Decision): real
    requires bought.Placed?
  {
    var executed := RoundVolume(bought.executed);
    if executed > 0.0 && bought.amount > 0.0 then bought.amount / executed else QuotedPrice(d)
  }

  // From a filled BUY on.
  function Exit(r: SubReport, d: Decision, s: Script): SubReport
    requires s.buy.Gives? && Filled(s.buy.value)
  {
    var bought := s.buy.value;
    var hold := HoldOf(s.ticks, EntryPrice(bought, d), d.costRate + PROFIT_MARGIN);
    if hold.HoldRaises? || s.exitBid.Raises? then r.(status := Failed)
    else if s.exitBid.value <= 0.0 then Closed(r, Failed, true, s.checksPass)
    else if s.sell.Raises? then r.(status := Failed)
    else
      var sold := s.sell.value;
      var r' := AddOrder(r, SellSide, d.symbol, RoundVolume(bought.executed), sold);
      if !Filled(sold) then Closed(r', Stopped, true, s.checksPass)
      else Closed(ApplyPnl(r'.(exit := hold.reason), bought, sold), PassedTrade, false, s.checksPass)
  }

  function TradeOf(d: Decision, notional: real, s: Script): SubReport {
    var r := BLANK.(symbol := d.symbol, timeframe := d.timeframe);
    if Requested(d, notional) <= 0.0 then Closed(r, Failed, true, s.checksPass)
    else if s.buy.Raises? then r.(status := Failed)
    else
      var r' := AddOrder(r, BuySide, d.symbol, Requested(d, notional), s.buy.value);
      if !Filled(s.buy.value) then Closed(r', Stopped, true, s.checksPass) else Exit(r', d, s)
  }

  // What the second half of a trade keeps to.
  lemma ExitLaws(r: SubReport, d: Decision, s: Script)
    requires s.buy.Gives? && Filled(s.buy.value) && |r.orders| == 1 && r.orders[0].side == BuySide && r.orders[0].filled
    requires r.orderCount == 1 && r.buyFilled == 1 && r.sellFilled == 0 && r.symbol == r.orders[0].symbol == d.symbol
    requires r.gross == r.fee == r.net == r.realized == 0.0
    ensures var x := Exit(r, d, s);
            && OrderDiscipline(x) && x.status != PassIdle && |x.orders| >= 1 && x.orders[0] == r.orders[0]
            && (x.status == PassedTrade ==>
                  && TradeSound(x, [d.symbol]) && s.sell.Gives? && Filled(s.sell.value)
                  && x.gross == s.sell.value.amount - s.buy.value.amount
                  && x.fee == s.buy.value.fee + s.sell.value.fee
                  && x.orders[1].volume == RoundVolume(s.buy.value.executed))
  {
    hide RoundVolume;
    hide HoldOf;
    hide EntryPrice;
  }

  // What every trade keeps to, and what a passed one reports.
  lemma TradeLaws(d: Decision, notional: real, s: Script)
    ensures var r := TradeOf(d, notional, s);
            && OrderDiscipline(r) && r.status != PassIdle
            && (r.status == PassedTrade ==>
                  && TradeSound(r, [d.symbol]) && TradeTraced(r, s, notional)
                  && r.orders[0].volume == Requested(d, notional))
  {
    hide RoundVolume;
    hide Exit;
    var r := TradeOf(d, notional, s);
    if s.buy.Gives? && Filled(s.buy.value) {
      ExitLaws(AddOrder(BLANK.(symbol := d.symbol, timeframe := d.timeframe), BuySide, d.symbol, Requested(d, notional), s.buy.value), d, s);
    }
    if r.status == PassedTrade {
      RequestedIsRounded(d, notional);
      var x := notional / QuotedPrice(d);
      hide Requested;
      RoundsToExactlyWhen(Requested(d, notional), x, s.buy.value.executed);
    }
  }

  lemma RequestedIsRounded(d: Decision, notional: real)
    requires Requested(d, notional) > 0.0
    ensures QuotedPrice(d) > 0.0 && Requested(d, notional) == RoundVolume(notional / QuotedPrice(d))
  {
  }

  method TradeSelected(d: Decision, notional: real, s: Script) returns (r: SubReport)
    ensures r == TradeOf(d, notional, s)
    ensures OrderDiscipline(r) && r.status != PassIdle
    ensures r.status == PassedTrade ==>
              TradeSound(r, [d.symbol]) && TradeTraced(r, s, notional) && r.orders[0].volume == Requested(d, notional)
  {
    TradeLaws(d, notional, s);
    hide OrderDiscipline;
    hide TradeSound;
    hide TradeTraced;
    hide RoundVolume;
    hide HoldOf;
    hide Closed;
    hide AddOrder;
    hide ApplyPnl;
    r := BLANK.(symbol := d.symbol, timeframe := d.timeframe);
    var price := if d.price > 0.0 then d.price else d.ask;
    var volume := if price > 0.0 then RoundVolume(notional / price) else 0.0;
    if volume <= 0.0 {
      return Closed(r, Failed, true, s.checksPass);
    }
    if s.buy.Raises? {
      return r.(status := Failed);
    }
    var bought := s.buy.value;
    r := AddOrder(r, BuySide, d.symbol, volume, bought);
    if !Filled(bought) {
      return Closed(r, Stopped, true, s.checksPass);
    }
    var executed := RoundVolume(bought.executed);
    var entry := if executed > 0.0 && bought.amount > 0.0 then bought.amount / executed else price;
    var hold := HoldPosition(s.ticks, entry, d.costRate + PROFIT_MARGIN);
    if hold.HoldRaises? || s.exitBid.Raises? {
      return r.(status := Failed);
    }
    if s.exitBid.value <= 0.0 {
      return Closed(r, Failed, true, s.checksPass);
    }
    if s.sell.Raises? {
      return r.(status := Failed);
    }
    var sold := s.sell.value;
    r := AddOrder(r, SellSide, d.symbol, executed, sold);
    if !Filled(sold) {
      return Closed(r, Stopped, true, s.checksPass);
    }
    r := ApplyPnl(r.(exit := hold.reason), bought, sold);
    r := Closed(r, PassedTrade, false, s.checksPass);
  }

  // The scans until one of them selects a decision.
  function AfterScans(symbols: seq<string>, notional: real, s: Script, scans: seq<Reply<Scan>>): SubReport {
    if scans == [] then Closed(BLANK, PassIdle, false, s.checksPass)
    else if scans[0].Raises? then BLANK.(status := Failed)
    else
      var scan := scans[0].value;
      if scan.stop || scan.lossExceeded || scan.openOrder then Closed(BLANK, Stopped, true, s.checksPass)
      else if BestOf(symbols, scan).Some? then TradeOf(BestOf(symbols, scan).value, notional, s)
      else AfterScans(symbols, notional, s, scans[1..])
  }

  function PositionOf(symbols: seq<string>, notional: real, s: Script): SubReport {
    if !s.admitted || symbols == [] then BLANK.(status := Aborted) else AfterScans(symbols, notional, s, s.scans)
  }

  lemma {:induction false} ScanLaws(symbols: seq<string>, notional: real, s: Script, scans: seq<Reply<Scan>>)
    ensures var r := AfterScans(symbols, notional, s, scans);
            && OrderDiscipline(r)
            && (r.status == PassedTrade ==> TradeSound(r, symbols) && TradeTraced(r, s, notional))
            && (r.status == PassIdle ==> r.orderCount == 0)
  {
    hide TradeTraced;
    hide TradeOf;
    if scans != [] && scans[0].Gives? {
      var scan := scans[0].value;
      BestIsOffered(symbols, scan);
      if BestOf(symbols, scan).Some? {
        TradeLaws(BestOf(symbols, scan).value, notional, s);
      }
      hide BestOf;
      ScanLaws(symbols, notional, s, scans[1..]);
    }
  }

  method RunPosition(symbols: seq<string>, notional: real, s: Script) returns (r: SubReport)
    ensures r == PositionOf(symbols, notional, s)
    ensures OrderDiscipline(r)
    ensures r.status == PassedTrade ==> TradeSound(r, symbols) && TradeTraced(r, s, notional)
    ensures r.status == PassIdle ==> r.orderCount == 0
  {
    ScanLaws(symbols, notional, s, s.scans);
    r := BLANK;
    if !s.admitted || symbols == [] {
      return r.(status := Aborted);
    }
    hide OrderDiscipline;
    hide TradeSound;
    hide TradeTraced;
    hide TradeOf;
    hide BestOf;
    hide Closed;
    for i := 0 to |s.scans|
      invariant r == BLANK
      invariant AfterScans(symbols, notional, s, s.scans) == AfterScans(symbols, notional, s, s.scans[i..])
    {
      if s.scans[i].Raises? {
        return r.(status := Failed);
      }
      var scan := s.scans[i].value;
      if scan.stop || scan.lossExceeded || scan.openOrder {
        return Closed(r, Stopped, true, s.checksPass);
      }
      var best := ScanSymbols(symbols, scan);
      if best.Some? {
        r := TradeSelected(best.value, notional, s);
        return;
      }
    }
    r := Closed(r, PassIdle, false, s.checksPass);
  }

  // The two volumes can differ: a BUY of 1.0 reported filled with 0.5 is followed by a
  // SELL of 0.5, and the run passes.
  lemma VolumesCanDiffer(symbols: seq<string>, scan: Scan, s: Script)
    requires s.admitted && symbols != [] && s.scans == [Gives(scan)]
    requires !scan.stop && !scan.lossExceeded && !scan.openOrder
    requires forall symbol, frame :: scan.decide(symbol, frame).tradeable && scan.decide(symbol, frame).price == 100.0
    requires s.buy == Gives(Placed(true, 0.5, 50.0, 0.025)) && s.ticks == [] && s.exitBid == Gives(101.0)
    requires s.sell == Gives(Placed(true, 0.5, 50.5, 0.02525)) && s.checksPass == Gives(true)
    ensures var r := PositionOf(symbols, 100.0, s);
            r.status == PassedTrade && |r.orders| == 2 && r.orders[0].volume == 1.0 && r.orders[1].volume == 0.5
  {
    BestIsOffered(symbols, scan);
    var d := BestOf(symbols, scan).value;
    hide BestOf;
    assert d.price == 100.0;
    assert Requested(d, 100.0) == 1.0 by { HundredAtHundred(d); }
    assert RoundVolume(0.5) == 0.5 by { RoundHalf(); }
    hide RoundVolume;
    assert TradeOf(d, 100.0, s) == PositionOf(symbols, 100.0, s);
  }

  lemma HundredAtHundred(d: Decision)
    requires d.price == 100.0
    ensures Requested(d, 100.0) == 1.0
  {
    assert 100.0 / 100.0 == 1.0;
    assert (1.0 * 100000000.0).Floor == 100000000;
  }

  lemma RoundHalf()
    ensures RoundVolume(0.5) == 0.5
  {
    assert (0.5 * 100000000.0).Floor == 50000000;
  }

  // ----- the loop and its report

  datatype LoopStatus = Running | LoopFailed | LoopAborted | LoopStopped | LoopIdle | Profitable | Technical

  // One pass of the loop; `timeLeft` and `seconds` are two readings of the clock.
  datatype Pass = Pass(timeLeft: bool, stop: bool, lossBefore: bool, seconds: int, raises: bool,
                       script: Script, lossAfter: bool)

  datatype Figures = Figures(tradeCount: nat, orderCount: nat, buyFilled: nat, sellFilled: nat,
                             gross: real, fee: real, net: real, realized: real,
                             symbols: seq<string>, exits: map<ExitReason, nat>, timeStops: nat,
                             profitable: nat, losing: nat)

  const NOTHING := Figures(0, 0, 0, 0, 0.0, 0.0, 0.0, 0.0, [], map[], 0, 0, 0)

  function CountOf(exits: map<ExitReason, nat>, reason: ExitReason): nat {
    if reason in exits then exits[reason] else 0
  }

  function ExitTotal(exits: map<ExitReason, nat>): nat {
    CountOf(exits, TimeStop) + CountOf(exits, ManualStop) + CountOf(exits, AccountingStop)
    + CountOf(exits, TakeProfit) + CountOf(exits, StopLoss)
  }

  function Merged(f: Figures, sub: SubReport): Figures {
    if sub.status != PassedTrade then f
    else
      Figures(f.tradeCount + 1, f.orderCount + sub.orderCount, f.buyFilled + sub.buyFilled, f.sellFilled + sub.sellFilled,
              f.gross + sub.gross, f.fee + sub.fee, f.net + sub.net, f.realized + sub.realized,
              if sub.symbol != "" && sub.symbol !in f.symbols then f.symbols + [sub.symbol] else f.symbols,
              f.exits[sub.exit := CountOf(f.exits, sub.exit) + 1],
              f.timeStops + (if sub.exit.TimeStop? then 1 else 0),
              f.profitable + (if sub.net > 0.0 then 1 else 0), f.losing + (if sub.net > 0.0 then 0 else 1))
  }

  class LoopReport {
    var figures: Figures
    var subRuns: seq<SubReport>
    var status: LoopStatus

    constructor ()
      ensures figures == NOTHING && subRuns == [] && status == Running
    {
      figures, subRuns, status := NOTHING, [], Running;
    }

    method Merge(sub: SubReport)
      modifies this
      ensures figures == Merged(old(figures), sub)
      ensures subRuns == old(subRuns) + [sub] && status == old(status)
    {
      subRuns := subRuns + [sub];
      if sub.status != PassedTrade {
        return;
      }
      figures := figures.(tradeCount := figures.tradeCount + 1, orderCount := figures.orderCount + sub.orderCount,
                          buyFilled := figures.buyFilled + sub.buyFilled, sellFilled := figures.sellFilled + sub.sellFilled,
                          gross := figures.gross + sub.gross, net := figures.net + sub.net,
                          realized := figures.realized + sub.realized, fee := figures.fee + sub.fee);
      if sub.symbol != "" && sub.symbol !in figures.symbols {
        figures := figures.(symbols := figures.symbols + [sub.symbol]);
      }
      figures := figures.(exits := figures.exits[sub.exit := CountOf(figures.exits, sub.exit) + 1]);
      if sub.exit == TimeStop {
        figures := figures.(timeStops := figures.timeStops + 1);
      }
      if sub.net > 0.0 {
        figures := figures.(profitable := figures.profitable + 1);
      } else {
        figures := figures.(losing := figures.losing + 1);
      }
    }
  }

  function Without(symbols: seq<string>, traded: set<string>): seq<string> {
    if symbols == [] then []
    else if symbols[0] in traded then Without(symbols[1..], traded)
    else [symbols[0]] + Without(symbols[1..], traded)
  }

  // The trades among the sub-runs, by symbol, in order.
  function TradedSymbols(subs: seq<SubReport>): seq<string> {
    if subs == [] then []
    else
      var rest, last := TradedSymbols(subs[..|subs| - 1]), subs[|subs| - 1];
      if last.status == PassedTrade then rest + [last.symbol] else rest
  }

  predicate Distinct(names: seq<string>) {
    forall i, j | 0 <= i < j < |names| :: names[i] != names[j]
  }

  // The arithmetic that ties the merged figures together.
  predicate FiguresSound(f: Figures) {
    && f.orderCount == 2 * f.tradeCount
    && f.buyFilled == f.tradeCount && f.sellFilled == f.tradeCount
    && f.net == f.gross - f.fee && f.realized == f.net
    && f.profitable + f.losing == f.tradeCount
    && ExitTotal(f.exits) == f.tradeCount && f.timeStops == CountOf(f.exits, TimeStop)
  }

  // Figures and trades: one symbol per trade, never the same one twice, each traced to
  // the fills of its own pass.
  ghost predicate LoopSound(f: Figures, subs: seq<SubReport>, symbols: seq<string>, passes: nat -> Pass, notional: real) {
    FiguresSound(f) && SymbolsSound(f, subs, symbols) && SubsSound(subs, symbols, passes, notional)
  }

  predicate SymbolsSound(f: Figures, subs: seq<SubReport>, symbols: seq<string>) {
    && f.symbols == TradedSymbols(subs) && Distinct(f.symbols) && |f.symbols| == f.tradeCount
    && forall i | 0 <= i < |f.symbols| :: f.symbols[i] in symbols
  }

  ghost predicate SubsSound(subs: seq<SubReport>, symbols: seq<string>, passes: nat -> Pass, notional: real) {
    forall i: nat | i < |subs| :: SubSound(subs[i], symbols, passes(i).script, notional)
  }

  ghost predicate SubSound(sub: SubReport, symbols: seq<string>, s: Script, notional: real) {
    OrderDiscipline(sub) && (sub.status == PassedTrade ==> TradeSound(sub, symbols) && TradeTraced(sub, s, notional))
  }

  lemma {:induction false} WithoutMembers(symbols: seq<string>, traded: set<string>)
    ensures forall x :: x in Without(symbols, traded) <==> x in symbols && x !in traded
  {
    if symbols != [] {
      WithoutMembers(symbols[1..], traded);
      assert symbols == [symbols[0]] + symbols[1..];
    }
  }

  lemma OneMoreExit(exits: map<ExitReason, nat>, reason: ExitReason)
    ensures var after := exits[reason := CountOf(exits, reason) + 1];
            && ExitTotal(after) == ExitTotal(exits) + 1
            && CountOf(after, TimeStop) == CountOf(exits, TimeStop) + (if reason.TimeStop? then 1 else 0)
  {
    var after := exits[reason := CountOf(exits, reason) + 1];
    assert forall other | other != reason :: CountOf(after, other) == CountOf(exits, other);
    assert CountOf(after, reason) == CountOf(exits, reason) + 1;
    hide CountOf;
  }

  lemma MergeKeepsFigures(f: Figures, sub: SubReport, symbols: seq<string>)
    requires FiguresSound(f) && sub.status == PassedTrade && TradeSound(sub, symbols)
    ensures FiguresSound(Merged(f, sub))
  {
    OneMoreExit(f.exits, sub.exit);
    hide ExitTotal;
    hide CountOf;
  }

  lemma MergeKeepsSymbols(f: Figures, subs: seq<SubReport>, sub: SubReport, symbols: seq<string>)
    requires SymbolsSound(f, subs, symbols)
    requires sub.status == PassedTrade ==> sub.symbol != "" && sub.symbol in symbols && sub.symbol !in f.symbols
    ensures SymbolsSound(Merged(f, sub), subs + [sub], symbols)
  {
    hide CountOf;
    var after := subs + [sub];
    assert after[..|subs|] == subs;
    assert after[|after| - 1] == sub;
  }

  lemma MergeKeepsSubs(subs: seq<SubReport>, sub: SubReport, symbols: seq<string>, passes: nat -> Pass, notional: real)
    requires SubsSound(subs, symbols, passes, notional) && SubSound(sub, symbols, passes(|subs|).script, notional)
    ensures SubsSound(subs + [sub], symbols, passes, notional)
  {
    hide SubSound;
  }

  // Merging a sub-run over the symbols not traded yet.
  lemma MergeKeepsLoop(f: Figures, subs: seq<SubReport>, sub: SubReport, symbols: seq<string>, remaining: seq<string>,
                       passes: nat -> Pass, notional: real)
    requires LoopSound(f, subs, symbols, passes, notional) && OrderDiscipline(sub) && "" !in symbols
    requires sub.status == PassedTrade ==> TradeSound(sub, remaining) && TradeTraced(sub, passes(|subs|).script, notional)
    requires forall x | x in remaining :: x in symbols && x !in f.symbols
    ensures LoopSound(Merged(f, sub), subs + [sub], symbols, passes, notional)
  {
    hide FiguresSound;
    hide SymbolsSound;
    hide SubsSound;
    hide OrderDiscipline;
    hide TradeTraced;
    if sub.status == PassedTrade {
      MergeKeepsFigures(f, sub, remaining);
    }
    MergeKeepsSymbols(f, subs, sub, symbols);
    MergeKeepsSubs(subs, sub, symbols, passes, notional);
  }

  function Members(names: seq<string>): set<string> {
    set i | 0 <= i < |names| :: names[i]
  }

  // One more pass over the symbols that have not been traded.
  lemma PassKeepsLoop(f: Figures, subs: seq<SubReport>, sub: SubReport, symbols: seq<string>, traded: set<string>,
                      passes: nat -> Pass, notional: real)
    requires LoopSound(f, subs, symbols, passes, notional) && OrderDiscipline(sub) && "" !in symbols && traded == Members(f.symbols)
    requires sub.status == PassedTrade ==>
               TradeSound(sub, Without(symbols, traded)) && TradeTraced(sub, passes(|subs|).script, notional)
    ensures LoopSound(Merged(f, sub), subs + [sub], symbols, passes, notional)
    ensures sub.status == PassedTrade ==> traded + {sub.symbol} == Members(Merged(f, sub).symbols)
    ensures sub.status == PassedTrade ==> sub.symbol != "" && Merged(f, sub).tradeCount == f.tradeCount + 1
    ensures sub.status != PassedTrade ==> Merged(f, sub) == f
  {
    WithoutMembers(symbols, traded);
    MergeKeepsLoop(f, subs, sub, symbols, Without(symbols, traded), passes, notional);
    if sub.status == PassedTrade {
      hide LoopSound;
      assert sub.symbol in Without(symbols, traded);
      assert sub.symbol !in f.symbols;
      assert Merged(f, sub).symbols == f.symbols + [sub.symbol];
      MembersNext(f.symbols, sub.symbol);
    }
  }

  lemma MembersNext(names: seq<string>, name: string)
    ensures Members(names + [name]) == Members(names) + {name}
  {
    var all := names + [name];
    assert forall i | 0 <= i < |names| :: all[i] == names[i];
    assert all[|names|] == name;
  }

  lemma NothingAddsUp()
    ensures FiguresSound(NOTHING)
  {
  }

  lemma NothingIsSound(symbols: seq<string>, passes: nat -> Pass, notional: real)
    ensures LoopSound(NOTHING, [], symbols, passes, notional) && Members(NOTHING.symbols) == {}
  {
    hide FiguresSound;
    hide TradeSound;
    hide TradeTraced;
    hide OrderDiscipline;
    NothingAddsUp();
    assert NOTHING.symbols == [] && NOTHING.tradeCount == 0;
  }

  // ----- the figures as sums, and how the loop went

  // The sum of a value over the sub-runs that passed with a trade.
  function TotalOf(subs: seq<SubReport>, value: SubReport -> real): real {
    if subs == [] then 0.0
    else
      var last := subs[|subs| - 1];
      TotalOf(subs[..|subs| - 1], value) + (if last.status == PassedTrade then value(last) else 0.0)
  }

  // How many of the sub-runs that passed with a trade are counted.
  function NumberOf(subs: seq<SubReport>, counted: SubReport -> bool): nat {
    if subs == [] then 0
    else
      var last := subs[|subs| - 1];
      NumberOf(subs[..|subs| - 1], counted) + (if last.status == PassedTrade && counted(last) then 1 else 0)
  }

  const GROSS_OF := (r: SubReport) => r.gross
  const FEE_OF := (r: SubReport) => r.fee
  const NET_OF := (r: SubReport) => r.net
  const REALIZED_OF := (r: SubReport) => r.realized
  const GAINED := (r: SubReport) => r.net > 0.0
  const NOT_GAINED := (r: SubReport) => r.net <= 0.0

  function ExitedBy(reason: ExitReason): SubReport -> bool {
    (r: SubReport) => r.exit == reason
  }

  // Every figure is the sum, or the number, of the trades it speaks of.
  ghost predicate FiguresAddUp(f: Figures, subs: seq<SubReport>) {
    && f.gross == TotalOf(subs, GROSS_OF) && f.fee == TotalOf(subs, FEE_OF)
    && f.net == TotalOf(subs, NET_OF) && f.realized == TotalOf(subs, REALIZED_OF)
    && f.profitable == NumberOf(subs, GAINED) && f.losing == NumberOf(subs, NOT_GAINED)
    && f.timeStops == NumberOf(subs, ExitedBy(TimeStop))
    && (forall reason: ExitReason ::
          (if reason in f.exits then f.exits[reason] else 0) == NumberOf(subs, ExitedBy(reason)))
  }

  lemma NothingIsTheSum()
    ensures FiguresAddUp(NOTHING, [])
  {
  }

  lemma MergeAddsUp(f: Figures, subs: seq<SubReport>, sub: SubReport)
    requires FiguresAddUp(f, subs)
    ensures FiguresAddUp(Merged(f, sub), subs + [sub])
  {
    var all := subs + [sub];
    assert all[..|subs|] == subs && all[|subs|] == sub;
  }

  // The k-th sub-run is that of the k-th pass over the symbols not traded before it; only
  // after a trade, and with no loss limit reached, did another pass follow.
  ghost predicate PassesRan(subs: seq<SubReport>, symbols: seq<string>, passes: nat -> Pass, notional: real) {
    forall k: nat | k < |subs| ::
      && passes(k).timeLeft && !passes(k).stop && !passes(k).raises && !passes(k).lossBefore && passes(k).seconds > 0
      && Untraded(symbols, subs[..k]) != []
      && subs[k] == PositionOf(Untraded(symbols, subs[..k]), notional, passes(k).script)
      && (k + 1 < |subs| ==> subs[k].status == PassedTrade && !passes(k).lossAfter)
  }

  function Untraded(symbols: seq<string>, subs: seq<SubReport>): seq<string> {
    Without(symbols, Members(TradedSymbols(subs)))
  }

  lemma PassesRanNext(subs: seq<SubReport>, symbols: seq<string>, passes: nat -> Pass, notional: real)
    requires PassesRan(subs, symbols, passes, notional) && Untraded(symbols, subs) != []
    requires subs == [] || (subs[|subs| - 1].status == PassedTrade && !passes(|subs| - 1).lossAfter)
    requires var p := passes(|subs|); p.timeLeft && !p.stop && !p.raises && !p.lossBefore && p.seconds > 0
    ensures PassesRan(subs + [PositionOf(Untraded(symbols, subs), notional, passes(|subs|).script)], symbols, passes, notional)
  {
    hide PositionOf;
    hide Untraded;
    var all := subs + [PositionOf(Untraded(symbols, subs), notional, passes(|subs|).script)];
    assert forall k: nat | k <= |subs| :: all[..k] == subs[..k];
    assert subs[..|subs|] == subs;
  }

  // How a loop that has come to its closing checks ends.
  predicate ClosesAs(status: LoopStatus, f: Figures, checksPass: Reply<bool>) {
    && (checksPass.Raises? ==> status == LoopFailed)
    && (checksPass == Gives(false) ==> status == LoopStopped)
    && (checksPass == Gives(true) && f.tradeCount == 0 ==> status == LoopIdle)
    && (checksPass == Gives(true) && f.tradeCount > 0 && f.net > 0.0 ==> status == Profitable)
    && (checksPass == Gives(true) && f.tradeCount > 0 && f.net <= 0.0 ==> status == Technical)
  }

  // Why the loop ended: by its last sub-run, or in front of the pass that did not run.
  ghost predicate EndsAs(status: LoopStatus, f: Figures, subs: seq<SubReport>, symbols: seq<string>, max: nat,
                         passes: nat -> Pass, checksPass: Reply<bool>)
  {
    var n: nat := |subs|;
    if n > 0 && (passes(n - 1).lossAfter || subs[n - 1].status !in {PassedTrade, PassIdle}) then status == LoopStopped
    else if n > 0 && subs[n - 1].status == PassIdle then ClosesAs(status, f, checksPass)
    else if f.tradeCount >= max || !passes(n).timeLeft || passes(n).stop then ClosesAs(status, f, checksPass)
    else if passes(n).raises then status == LoopFailed
    else if passes(n).lossBefore then status == LoopStopped
    else (Untraded(symbols, subs) == [] || passes(n).seconds <= 0) && ClosesAs(status, f, checksPass)
  }

  // What holds of the sub-runs made so far, also once the last one has ended the loop.
  ghost predicate Told(f: Figures, subs: seq<SubReport>, symbols: seq<string>, max: nat, passes: nat -> Pass, notional: real) {
    && LoopSound(f, subs, symbols, passes, notional) && FiguresAddUp(f, subs) && PassesRan(subs, symbols, passes, notional)
    && f.tradeCount <= max && (f.tradeCount == 0 ==> f == NOTHING)
  }

  // In front of another pass.
  ghost predicate Underway(f: Figures, subs: seq<SubReport>, symbols: seq<string>, traded: set<string>, max: nat,
                           passes: nat -> Pass, notional: real)
  {
    && Told(f, subs, symbols, max, passes, notional)
    && traded == Members(f.symbols) && Without(symbols, traded) == Untraded(symbols, subs)
    && (subs != [] ==> subs[|subs| - 1].status == PassedTrade && !passes(|subs| - 1).lossAfter)
  }

  lemma NothingUnderway(symbols: seq<string>, max: nat, passes: nat -> Pass, notional: real)
    ensures Underway(NOTHING, [], symbols, {}, max, passes, notional)
  {
    NothingIsSound(symbols, passes, notional);
    NothingIsTheSum();
    hide LoopSound;
    hide FiguresAddUp;
  }

  lemma UnderwayNext(f: Figures, subs: seq<SubReport>, sub: SubReport, symbols: seq<string>, traded: set<string>, max: nat,
                     passes: nat -> Pass, notional: real)
    requires Underway(f, subs, symbols, traded, max, passes, notional) && f.tradeCount < max && "" !in symbols
    requires var p := passes(|subs|); p.timeLeft && !p.stop && !p.raises && !p.lossBefore && p.seconds > 0
    requires Without(symbols, traded) != [] && sub == PositionOf(Without(symbols, traded), notional, passes(|subs|).script)
    requires OrderDiscipline(sub)
    requires sub.status == PassedTrade ==>
               TradeSound(sub, Without(symbols, traded)) && TradeTraced(sub, passes(|subs|).script, notional)
    ensures Told(Merged(f, sub), subs + [sub], symbols, max, passes, notional)
    ensures sub.status == PassedTrade ==> sub.symbol != "" && Merged(f, sub).tradeCount == f.tradeCount + 1
    ensures sub.status == PassedTrade && !passes(|subs|).lossAfter ==>
              Underway(Merged(f, sub), subs + [sub], symbols, traded + {sub.symbol}, max, passes, notional)
  {
    hide *;
    UnderwayUnfolds(f, subs, symbols, traded, max, passes, notional);
    PassKeepsLoop(f, subs, sub, symbols, traded, passes, notional);
    PassesRanNext(subs, symbols, passes, notional);
    MergeAddsUp(f, subs, sub);
    ToldAgain(f, Merged(f, sub), subs + [sub], symbols, max, passes, notional);
    if sub.status == PassedTrade && !passes(|subs|).lossAfter {
      UnderwayAgain(Merged(f, sub), subs, sub, symbols, traded + {sub.symbol}, max, passes, notional);
    }
  }

  lemma UnderwayUnfolds(f: Figures, subs: seq<SubReport>, symbols: seq<string>, traded: set<string>, max: nat,
                        passes: nat -> Pass, notional: real)
    requires Underway(f, subs, symbols, traded, max, passes, notional)
    ensures LoopSound(f, subs, symbols, passes, notional) && FiguresAddUp(f, subs) && PassesRan(subs, symbols, passes, notional)
    ensures f.tradeCount <= max && (f.tradeCount == 0 ==> f == NOTHING)
    ensures traded == Members(f.symbols) && Without(symbols, traded) == Untraded(symbols, subs)
    ensures subs != [] ==> subs[|subs| - 1].status == PassedTrade && !passes(|subs| - 1).lossAfter
  {
    hide LoopSound;
    hide FiguresAddUp;
    hide PassesRan;
    hide Without;
    hide Untraded;
    hide Members;
  }

  lemma ToldAgain(before: Figures, f: Figures, subs: seq<SubReport>, symbols: seq<string>, max: nat, passes: nat -> Pass, notional: real)
    requires LoopSound(f, subs, symbols, passes, notional) && FiguresAddUp(f, subs) && PassesRan(subs, symbols, passes, notional)
    requires before.tradeCount < max && (before.tradeCount == 0 ==> before == NOTHING)
    requires f == before || f.tradeCount == before.tradeCount + 1
    ensures Told(f, subs, symbols, max, passes, notional)
  {
    hide LoopSound;
    hide FiguresAddUp;
    hide PassesRan;
  }

  lemma UnderwayAgain(f: Figures, subs: seq<SubReport>, sub: SubReport, symbols: seq<string>, traded: set<string>, max: nat,
                      passes: nat -> Pass, notional: real)
    requires Told(f, subs + [sub], symbols, max, passes, notional) && traded == Members(f.symbols)
    requires sub.status == PassedTrade && !passes(|subs|).lossAfter
    ensures Underway(f, subs + [sub], symbols, traded, max, passes, notional)
  {
    hide FiguresAddUp;
    hide PassesRan;
    assert LoopSound(f, subs + [sub], symbols, passes, notional);
    SoundSymbols(f, subs + [sub], symbols, passes, notional);
    hide LoopSound;
    hide Without;
    hide Members;
  }

  lemma SoundSymbols(f: Figures, subs: seq<SubReport>, symbols: seq<string>, passes: nat -> Pass, notional: real)
    requires LoopSound(f, subs, symbols, passes, notional)
    ensures Members(f.symbols) == Members(TradedSymbols(subs))
  {
  }

  // One trade per symbol, for every behaviour of the exchange.
  method RunLoop(requested: seq<string>, maxTrades: nat, notional: real, admitted: bool,
                 passes: nat -> Pass, checksPass: Reply<bool>)
    returns (report: LoopReport)
    ensures fresh(report) && report.status != Running
    ensures Told(report.figures, report.subRuns, Allowed(requested), Clamp(maxTrades), passes, notional)
    ensures report.status == LoopAborted <==> !admitted || Allowed(requested) == []
    ensures report.status == LoopAborted ==> report.subRuns == []
    ensures report.status != LoopAborted ==>
              EndsAs(report.status, report.figures, report.subRuns, Allowed(requested), Clamp(maxTrades), passes, checksPass)
  {
    hide Told;
    hide Merged;
    hide TradeSound;
    hide TradeTraced;
    hide OrderDiscipline;
    hide PositionOf;
    hide Allowed;
    hide Without;
    hide Members;
    hide Untraded;
    hide Clamp;
    var symbols, max := Allowed(requested), Clamp(maxTrades);
    AllowedMembers(requested);
    NothingUnderway(symbols, max, passes, notional);
    assert Told(NOTHING, [], symbols, max, passes, notional);
    report := new LoopReport();
    if !admitted || symbols == [] {
      report.status := LoopAborted;
      return;
    }
    var traded: set<string> := {};
    var k := 0;
    while passes(k).timeLeft && report.figures.tradeCount < max
      invariant fresh(report) && report.status == Running
      invariant Underway(report.figures, report.subRuns, symbols, traded, max, passes, notional)
      invariant |report.subRuns| == k
      decreases max - report.figures.tradeCount
    {
      var pass := passes(k);
      k := k + 1;
      if pass.stop {
        break;
      }
      if pass.raises {
        report.status := LoopFailed;
        return;
      }
      if pass.lossBefore {
        report.status := LoopStopped;
        return;
      }
      var remaining := Without(symbols, traded);
      if remaining == [] || pass.seconds <= 0 {
        break;
      }
      var sub := RunPosition(remaining, notional, pass.script);
      UnderwayNext(report.figures, report.subRuns, sub, symbols, traded, max, passes, notional);
      report.Merge(sub);
      if pass.lossAfter {
        report.status := LoopStopped;
        return;
      }
      if sub.status == PassedTrade {
        if sub.symbol != "" {
          traded := traded + {sub.symbol};
        }
      } else if sub.status == PassIdle {
        break;
      } else {
        report.status := LoopStopped;
        return;
      }
    }
    if checksPass.Raises? {
      report.status := LoopFailed;
    } else if !checksPass.value {
      report.status := LoopStopped;
    } else if report.figures.tradeCount == 0 {
      report.status := LoopIdle;
    } else if report.figures.net > 0.0 {
      report.status := Profitable;
    } else {
      report.status := Technical;
    }
  }

  const MAX_TRADES := 3

  function Clamp(n: nat): nat { if n < 1 then 1 else if n > MAX_TRADES then MAX_TRADES else n }

  // Only BTC and ETH are traded, however they are spelt; asking for nothing asks for both.
  function Allowed(requested: seq<string>): seq<string> {
    Keep(if requested == [] then SYMBOLS else requested)
  }

  function Capitals(name: string): string {
    seq(|name|, i requires 0 <= i < |name| => Capital(name[i]))
  }

  function Capital(c: char): char {
    if 'a' <= c <= 'z' then (c as int - 'a' as int + 'A' as int) as char else c
  }

  function Keep(symbols: seq<string>): seq<string> {
    if symbols == [] then []
    else if Capitals(symbols[0]) in SYMBOLS then [Capitals(symbols[0])] + Keep(symbols[1..])
    else Keep(symbols[1..])
  }

  lemma AllowedMembers(requested: seq<string>)
    ensures forall x | x in Allowed(requested) :: x == "BTC" || x == "ETH"
  {
    hide Capitals;
    KeepMembers(if requested == [] then SYMBOLS else requested);
  }

  lemma {:induction false} KeepMembers(symbols: seq<string>)
    ensures forall x | x in Keep(symbols) :: x == "BTC" || x == "ETH"
  {
    hide Capitals;
    if symbols != [] {
      KeepMembers(symbols[1..]);
    }
  }

  // In a finished loop every trade sold what it had asked to buy exactly when every BUY
  // executed its volume up to less than one step.
  lemma LoopSellsAsRequestedExactlyWhen(f: Figures, subs: seq<SubReport>, symbols: seq<string>, passes: nat -> Pass, notional: real)
    requires LoopSound(f, subs, symbols, passes, notional)
    ensures (forall i: nat | i < |subs| && subs[i].status == PassedTrade :: |subs[i].orders| == 2 && SellsAsRequested(subs[i]))
            <==> forall i: nat | i < |subs| && subs[i].status == PassedTrade ::
                   && |subs[i].orders| == 2 && passes(i).script.buy.Gives? && passes(i).script.buy.value.Placed?
                   && ExecutedAsRequested(subs[i], passes(i).script.buy.value.executed)
  {
    forall i: nat | i < |subs| && subs[i].status == PassedTrade
      ensures TradeTraced(subs[i], passes(i).script, notional)
      ensures |subs[i].orders| == 2 && passes(i).script.buy.Gives? && passes(i).script.buy.value.Placed?
      ensures SellsAsRequested(subs[i]) <==> ExecutedAsRequested(subs[i], passes(i).script.buy.value.executed)
    {
    }
  }

  lemma {:induction false} DistinctNamesCount(names: seq<string>)
    requires Distinct(names)
    ensures |Members(names)| == |names|
  {
    if names != [] {
      var front, last := names[..|names| - 1], names[|names| - 1];
      DistinctNamesCount(front);
      MembersNext(front, last);
      assert names == front + [last];
    }
  }

  // Two symbols allow two trades, whatever maximum was asked for.
  lemma AtMostTwoTrades(f: Figures, subs: seq<SubReport>, requested: seq<string>, passes: nat -> Pass, notional: real)
    requires LoopSound(f, subs, Allowed(requested), passes, notional)
    ensures f.tradeCount <= 2 && f.orderCount <= 4
  {
    AllowedMembers(requested);
    DistinctNamesCount(f.symbols);
    var names, both := Members(f.symbols), {"BTC", "ETH"};
    assert forall i | 0 <= i < |f.symbols| :: f.symbols[i] in Allowed(requested);
    assert names <= both;
    assert both == names + (both - names);
  }
}
