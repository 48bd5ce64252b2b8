/** What a position run trades, when it leaves the position, what it sends and reports and
    how it ends, in terms of the decisions, the fills and the replies alone. */
module PositionReading {
  import opened Basics
  import opened PositionLoop

  // ----- what is traded

  const RANKING := [("ETH", "15m"), ("BTC", "15m"), ("ETH", "5m"), ("BTC", "5m"), ("ETH", "3m"), ("BTC", "3m")]

  predicate Ranked(d: Decision, i: int) {
    0 <= i < 6 && d.symbol == RANKING[i].0 && d.timeframe == RANKING[i].1
  }

  // Rank decides, then the larger edge, then the larger score.
  lemma PreferenceReads(a: Decision, b: Decision, i: int, j: int)
    requires Ranked(a, i) && Ranked(b, j)
    ensures Preferred(a, b) <==> i < j || (i == j && (a.edge > b.edge || (a.edge == b.edge && a.score > b.score)))
  {
    PriorityReads(a, i);
    PriorityReads(b, j);
    hide Priority;
  }

  lemma PriorityReads(d: Decision, i: int)
    requires Ranked(d, i)
    ensures Priority(d) == i
  {
  }

  // The i-th pair of the ranking is one of the symbols and its decision is tradeable.
  predicate Open(symbols: seq<string>, scan: Scan, i: int)
    requires 0 <= i < 6
  {
    RANKING[i].0 in symbols && scan.decide(RANKING[i].0, RANKING[i].1).tradeable
  }

  // The decision of the scan for the i-th pair of the ranking.
  function At(scan: Scan, i: int): Decision
    requires 0 <= i < 6
  {
    scan.decide(RANKING[i].0, RANKING[i].1).(symbol := RANKING[i].0, timeframe := RANKING[i].1)
  }

  // The first pair of the ranking that is open.
  predicate FirstOpen(symbols: seq<string>, scan: Scan, i: int) {
    0 <= i < 6 && Open(symbols, scan, i) && forall j | 0 <= j < i :: !Open(symbols, scan, j)
  }

  predicate NoneOpen(symbols: seq<string>, scan: Scan) {
    forall j | 0 <= j < 6 :: !Open(symbols, scan, j)
  }

  // No tradeable decision is preferred to the best one.
  lemma {:induction false} FramesKeepBest(best: Maybe<Decision>, scan: Scan, symbol: string, n: nat, d: Decision)
    requires n <= |TIMEFRAMES|
    requires (best.Some? && !Preferred(d, best.value))
             || exists j :: 0 <= j < n && d == DecisionFor(scan, symbol, TIMEFRAMES[j]) && d.tradeable
    ensures var after := OverTimeframes(best, scan, symbol, n); after.Some? && !Preferred(d, after.value)
  {
    hide Priority;
    if n > 0 {
      var x := DecisionFor(scan, symbol, TIMEFRAMES[n - 1]);
      var before := OverTimeframes(best, scan, symbol, n - 1);
      if d == x && d.tradeable {
      } else {
        FramesKeepBest(best, scan, symbol, n - 1, d);
        if Preferred(x, before.value) {
        }
      }
    }
  }

  lemma {:induction false} BestIsBest(symbols: seq<string>, scan: Scan, symbol: string, j: nat)
    requires symbol in symbols && j < |TIMEFRAMES| && DecisionFor(scan, symbol, TIMEFRAMES[j]).tradeable
    ensures var best := BestOf(symbols, scan);
            best.Some? && !Preferred(DecisionFor(scan, symbol, TIMEFRAMES[j]), best.value)
  {
    hide Preferred;
    hide OverTimeframes;
    var front, last := symbols[..|symbols| - 1], symbols[|symbols| - 1];
    var d := DecisionFor(scan, symbol, TIMEFRAMES[j]);
    if symbol != last {
      BestIsBest(front, scan, symbol, j);
    }
    FramesKeepBest(BestOf(front, scan), scan, last, |TIMEFRAMES|, d);
  }

  // Over BTC and ETH the pair traded is the first open one of the ranking.
  lemma FirstRankedIsTraded(symbols: seq<string>, scan: Scan)
    requires forall x | x in symbols :: x == "BTC" || x == "ETH"
    ensures BestOf(symbols, scan).None? <==> NoneOpen(symbols, scan)
    ensures BestOf(symbols, scan).Some? ==> exists i :: FirstOpen(symbols, scan, i) && BestOf(symbols, scan).value == At(scan, i)
  {
    var best := BestOf(symbols, scan);
    hide BestOf;
    assert best.Some? ==> Offered(best.value, symbols, scan) by { BestIsOffered(symbols, scan); }
    forall j | 0 <= j < 6 && Open(symbols, scan, j)
      ensures best.Some? && !Preferred(At(scan, j), best.value)
    {
      RankedFrame(j);
      var f :| 0 <= f < |TIMEFRAMES| && TIMEFRAMES[f] == RANKING[j].1;
      BestIsBest(symbols, scan, RANKING[j].0, f);
    }
    if best.Some? {
      PairIsRanked(best.value);
      var i :| Ranked(best.value, i);
      assert best.value == At(scan, i);
      assert Open(symbols, scan, i);
      forall j | 0 <= j < i ensures !Open(symbols, scan, j) {
        if Open(symbols, scan, j) {
          PreferenceReads(At(scan, j), best.value, j, i);
        }
      }
      assert FirstOpen(symbols, scan, i);
    }
  }

  lemma RankedFrame(j: int)
    requires 0 <= j < 6
    ensures exists f :: 0 <= f < |TIMEFRAMES| && TIMEFRAMES[f] == RANKING[j].1
  {
    assert TIMEFRAMES[0] == "3m" && TIMEFRAMES[1] == "5m" && TIMEFRAMES[2] == "15m";
  }

  lemma PairIsRanked(d: Decision)
    requires (d.symbol == "BTC" || d.symbol == "ETH") && d.timeframe in TIMEFRAMES
    ensures exists i :: Ranked(d, i)
  {
    assert d.timeframe == "3m" || d.timeframe == "5m" || d.timeframe == "15m";
    assert Ranked(d, 0) || Ranked(d, 1) || Ranked(d, 2) || Ranked(d, 3) || Ranked(d, 4) || Ranked(d, 5);
  }

  // ----- when the position is left

  // A price is at hand and no loss limit has been reached.
  predicate Quoted(t: Tick) {
    !t.stop && t.bid.Gives? && t.bid.value > 0.0 && !t.lossExceeded
  }

  // The bid has reached the profit rate above the entry; without an entry price the move is nought.
  predicate InProfit(t: Tick, entry: real, rate: real)
    requires t.bid.Gives?
  {
    if entry > 0.0 then t.bid.value - entry >= rate * entry else rate <= 0.0
  }

  predicate AtLoss(t: Tick, entry: real)
    requires t.bid.Gives?
  {
    entry > 0.0 && t.bid.value - entry <= -0.003 * entry
  }

  // A manual stop, a reply that fails, an accounting stop, and not before a minute the
  // profit and then the loss; nothing else ends the hold.
  lemma TickReads(t: Tick, entry: real, rate: real)
    ensures var h := TickOutcome(t, entry, rate);
            && (h == Leave(ManualStop) <==> t.stop)
            && (h == HoldRaises <==> !t.stop && t.bid.Raises?)
            && (h == Leave(AccountingStop) <==> !t.stop && t.bid.Gives? && t.bid.value > 0.0 && t.lossExceeded)
            && (h == Leave(TakeProfit) <==> Quoted(t) && t.elapsed >= 60 && InProfit(t, entry, rate))
            && (h == Leave(StopLoss) <==> Quoted(t) && t.elapsed >= 60 && !InProfit(t, entry, rate) && AtLoss(t, entry))
            && h != Leave(TimeStop)
  {
    if Quoted(t) {
      MoveReads(t.bid.value, entry, rate);
      MoveReads(t.bid.value, entry, -0.003);
      hide MoveRate;
    }
  }

  lemma MoveReads(mark: real, entry: real, rate: real)
    ensures entry > 0.0 ==> (MoveRate(mark, entry) >= rate <==> mark - entry >= rate * entry)
    ensures entry > 0.0 ==> (MoveRate(mark, entry) <= rate <==> mark - entry <= rate * entry)
    ensures entry <= 0.0 ==> MoveRate(mark, entry) == 0.0
  {
    if entry > 0.0 {
      var move := MoveRate(mark, entry);
      assert move * entry == mark - entry;
      TimesPositive(move, rate, entry);
    }
  }

  lemma TimesPositive(a: real, b: real, c: real)
    requires c > 0.0
    ensures a >= b <==> a * c >= b * c
    ensures a <= b <==> a * c <= b * c
  {
    if a < b {
      assert (b - a) * c > 0.0;
    } else if a > b {
      assert (a - b) * c > 0.0;
    }
  }

  // The first tick that ends the hold decides, and only without one the time runs out.
  lemma {:induction false} HoldReads(ticks: seq<Tick>, entry: real, rate: real)
    ensures var h := HoldOf(ticks, entry, rate);
            && (h == Leave(TimeStop) <==> forall i | 0 <= i < |ticks| :: TickOutcome(ticks[i], entry, rate) == StayIn)
            && (h != Leave(TimeStop) ==>
                  exists i :: 0 <= i < |ticks| && TickOutcome(ticks[i], entry, rate) == h
                    && forall j | 0 <= j < i :: TickOutcome(ticks[j], entry, rate) == StayIn)
  {
    if ticks != [] {
      TickReads(ticks[0], entry, rate);
      HoldReads(ticks[1..], entry, rate);
      hide TickOutcome;
      var h, rest := HoldOf(ticks, entry, rate), ticks[1..];
      if TickOutcome(ticks[0], entry, rate) == StayIn && h != Leave(TimeStop) {
        var i :| 0 <= i < |rest| && TickOutcome(rest[i], entry, rate) == h
                 && forall j | 0 <= j < i :: TickOutcome(rest[j], entry, rate) == StayIn;
        assert TickOutcome(ticks[i + 1], entry, rate) == h;
        assert forall j | 0 < j < i + 1 :: ticks[j] == rest[j - 1];
      } else if TickOutcome(ticks[0], entry, rate) == StayIn {
        assert forall j | 0 < j < |ticks| :: ticks[j] == rest[j - 1];
      }
    }
  }

  // ----- volumes and prices

  // A volume is the most whole steps of 0.00000001 that the value holds, and never negative.
  lemma VolumeReads(value: real)
    ensures value <= 0.0 ==> RoundVolume(value) == 0.0
    ensures value > 0.0 ==> RoundVolume(value) <= value < RoundVolume(value) + 0.00000001
    ensures (RoundVolume(value) * 100000000.0).Floor as real == RoundVolume(value) * 100000000.0 && RoundVolume(value) >= 0.0
  {
    if value > 0.0 {
      var n := (value * 100000000.0).Floor;
      assert RoundVolume(value) * 100000000.0 == n as real;
    }
  }

  function Quote(d: Decision): real { if d.price > 0.0 then d.price else d.ask }

  // The volume that spends the notional at the quoted price.
  function Spends(d: Decision, notional: real): real {
    if Quote(d) > 0.0 then RoundVolume(notional / Quote(d)) else 0.0
  }

  // What a unit bought has cost; the quoted price if the fill does not tell.
  function Cost(bought: Fill, d: Decision): real
    requires bought.Placed?
  {
    if RoundVolume(bought.executed) > 0.0 && bought.amount > 0.0 then bought.amount / RoundVolume(bought.executed) else Quote(d)
  }

  // ----- how far a trade comes

  predicate Full(reply: Reply<Fill>) {
    reply.Gives? && reply.value.Placed? && reply.value.filled
  }

  predicate Submitted(reply: Reply<Fill>) {
    reply.Gives? && reply.value.Placed?
  }

  // The SELL is sent: the BUY has filled, the hold ended and a bid was read.
  predicate SellSent(d: Decision, notional: real, s: Script) {
    && Spends(d, notional) > 0.0 && Full(s.buy)
    && HoldOf(s.ticks, Cost(s.buy.value, d), d.costRate + 0.001) != HoldRaises
    && s.exitBid.Gives? && s.exitBid.value > 0.0
  }

  predicate BothFilled(d: Decision, notional: real, s: Script) {
    SellSent(d, notional, s) && Full(s.sell)
  }

  // The exchange declined an order that was sent.
  predicate Declined(d: Decision, notional: real, s: Script) {
    || (Spends(d, notional) > 0.0 && s.buy.Gives? && !Full(s.buy))
    || (SellSent(d, notional, s) && s.sell.Gives? && !Full(s.sell))
  }

  predicate StatusReads(r: SubReport, d: Decision, notional: real, s: Script) {
    && (r.status == PassedTrade <==> BothFilled(d, notional, s) && s.checksPass == Gives(true))
    && (r.status == Stopped <==> || (Declined(d, notional, s) && s.checksPass.Gives?)
                                 || (BothFilled(d, notional, s) && s.checksPass == Gives(false)))
    && r.status != PassIdle && r.status != Aborted
  }

  predicate OrdersRead(r: SubReport, d: Decision, notional: real, s: Script) {
    && r.orders == (if Spends(d, notional) > 0.0 && Submitted(s.buy)
                    then [Order(BuySide, d.symbol, Spends(d, notional), s.buy.value.filled)] else [])
                   + (if SellSent(d, notional, s) && Submitted(s.sell)
                      then [Order(SellSide, d.symbol, RoundVolume(s.buy.value.executed), s.sell.value.filled)] else [])
    && r.orderCount == |r.orders|
    && r.buyFilled == (if Spends(d, notional) > 0.0 && Full(s.buy) then 1 else 0)
    && r.sellFilled == (if BothFilled(d, notional, s) then 1 else 0)
  }

  // Once both orders have filled the figures are those of the two fills, whatever the checks say.
  predicate FiguresRead(r: SubReport, d: Decision, notional: real, s: Script) {
    && r.symbol == d.symbol && r.timeframe == d.timeframe
    && (BothFilled(d, notional, s) ==>
          && r.gross == s.sell.value.amount - s.buy.value.amount
          && r.fee == s.buy.value.fee + s.sell.value.fee
          && r.net == s.sell.value.amount - s.buy.value.amount - s.buy.value.fee - s.sell.value.fee
          && r.realized == r.net
          && HoldOf(s.ticks, Cost(s.buy.value, d), d.costRate + 0.001) == Leave(r.exit))
    && (!BothFilled(d, notional, s) ==> r.gross == 0.0 && r.fee == 0.0 && r.net == 0.0 && r.realized == 0.0)
  }

  lemma AmountsRead(d: Decision, notional: real)
    ensures Quote(d) == QuotedPrice(d) && Spends(d, notional) == Requested(d, notional)
    ensures forall bought: Fill | bought.Placed? :: Cost(bought, d) == EntryPrice(bought, d)
  {
    hide RoundVolume;
  }

  lemma StatusIsRead(d: Decision, notional: real, s: Script)
    ensures StatusReads(TradeOf(d, notional, s), d, notional, s)
  {
    AmountsRead(d, notional);
    hide RoundVolume;
    hide HoldOf;
    hide QuotedPrice;
    hide Requested;
    hide EntryPrice;
    hide Spends;
    hide Cost;
    hide Quote;
  }

  lemma OrdersAreRead(d: Decision, notional: real, s: Script)
    ensures OrdersRead(TradeOf(d, notional, s), d, notional, s)
  {
    AmountsRead(d, notional);
    hide RoundVolume;
    hide HoldOf;
    hide QuotedPrice;
    hide Requested;
    hide EntryPrice;
    hide Spends;
    hide Cost;
    hide Quote;
  }

  lemma FiguresAreRead(d: Decision, notional: real, s: Script)
    ensures FiguresRead(TradeOf(d, notional, s), d, notional, s)
  {
    AmountsRead(d, notional);
    hide RoundVolume;
    hide HoldOf;
    hide QuotedPrice;
    hide Requested;
    hide EntryPrice;
    hide Spends;
    hide Cost;
    hide Quote;
  }

  // How a trade ends, what it has sent and what it reports, for every behaviour of the exchange.
  lemma TradeReads(d: Decision, notional: real, s: Script)
    ensures var r := TradeOf(d, notional, s);
            StatusReads(r, d, notional, s) && OrdersRead(r, d, notional, s) && FiguresRead(r, d, notional, s)
  {
    hide *;
    StatusIsRead(d, notional, s);
    OrdersAreRead(d, notional, s);
    FiguresAreRead(d, notional, s);
  }

  // ----- which scan decides

  // The scan stops nothing and has nothing open to trade.
  predicate Passed(reply: Reply<Scan>, symbols: seq<string>) {
    && reply.Gives? && !reply.value.stop && !reply.value.lossExceeded && !reply.value.openOrder
    && NoneOpen(symbols, reply.value)
  }

  predicate NothingSent(r: SubReport) {
    && r.orders == [] && r.orderCount == 0 && r.buyFilled == 0 && r.sellFilled == 0
    && r.gross == 0.0 && r.fee == 0.0 && r.net == 0.0 && r.realized == 0.0
  }

  // The first scan that is not passed over decides: it fails, it stops the run, or its
  // first open pair is traded.
  ghost predicate DecidedBy(r: SubReport, reply: Reply<Scan>, symbols: seq<string>, notional: real, s: Script) {
    if reply.Raises? then r.status == Failed && NothingSent(r)
    else if reply.value.stop || reply.value.lossExceeded || reply.value.openOrder
    then NothingSent(r) && r.status == (if s.checksPass.Raises? then Failed else Stopped)
    else exists i :: FirstOpen(symbols, reply.value, i) && r == TradeOf(At(reply.value, i), notional, s)
  }

  lemma {:induction false} ScansRead(symbols: seq<string>, notional: real, s: Script, scans: seq<Reply<Scan>>)
    requires forall x | x in symbols :: x == "BTC" || x == "ETH"
    ensures var r := AfterScans(symbols, notional, s, scans);
            && (forall k | 0 <= k < |scans| && !Passed(scans[k], symbols) && (forall j | 0 <= j < k :: Passed(scans[j], symbols)) ::
                  DecidedBy(r, scans[k], symbols, notional, s))
            && ((forall k | 0 <= k < |scans| :: Passed(scans[k], symbols)) ==> IdleReads(r, s))
  {
    hide TradeOf;
    hide FirstOpen;
    hide NoneOpen;
    hide BestOf;
    if scans != [] {
      if scans[0].Gives? {
        FirstRankedIsTraded(symbols, scans[0].value);
      }
      var rest := scans[1..];
      ScansRead(symbols, notional, s, rest);
      assert forall j | 0 < j < |scans| :: scans[j] == rest[j - 1];
      var r := AfterScans(symbols, notional, s, scans);
      forall k | 0 <= k < |scans| && !Passed(scans[k], symbols) && (forall j | 0 <= j < k :: Passed(scans[j], symbols))
        ensures DecidedBy(r, scans[k], symbols, notional, s)
      {
        if k > 0 {
          assert Passed(scans[0], symbols);
          hide DecidedBy;
          forall j | 0 <= j < k - 1 ensures Passed(rest[j], symbols) {
            assert rest[j] == scans[j + 1];
          }
          assert rest[k - 1] == scans[k];
        }
      }
    }
  }

  // Without any decision the run sends nothing and passes idle if its checks pass.
  predicate IdleReads(r: SubReport, s: Script) {
    && NothingSent(r)
    && r.status == (if s.checksPass.Raises? then Failed else if s.checksPass.value then PassIdle else Stopped)
  }

  // A position run from its admission on.
  lemma PositionReads(symbols: seq<string>, notional: real, s: Script)
    requires forall x | x in symbols :: x == "BTC" || x == "ETH"
    ensures var r := PositionOf(symbols, notional, s);
            && (!s.admitted || symbols == [] ==> r.status == Aborted && NothingSent(r))
            && (s.admitted && symbols != [] ==>
                  && (forall k | 0 <= k < |s.scans| && !Passed(s.scans[k], symbols)
                                 && (forall j | 0 <= j < k :: Passed(s.scans[j], symbols)) ::
                        DecidedBy(r, s.scans[k], symbols, notional, s))
                  && ((forall k | 0 <= k < |s.scans| :: Passed(s.scans[k], symbols)) ==> IdleReads(r, s)))
  {
    ScansRead(symbols, notional, s, s.scans);
    hide AfterScans;
    hide DecidedBy;
  }

  // ----- the loop

  // The symbols left are those allowed and not traded.
  lemma {:induction false} TradedReads(subs: seq<SubReport>, x: string)
    ensures x in Members(TradedSymbols(subs)) <==> exists k :: 0 <= k < |subs| && subs[k].status == PassedTrade && subs[k].symbol == x
  {
    if subs != [] {
      var front, last := subs[..|subs| - 1], subs[|subs| - 1];
      TradedReads(front, x);
      MembersNext(TradedSymbols(front), last.symbol);
      hide Members;
      if k :| 0 <= k < |subs| && subs[k].status == PassedTrade && subs[k].symbol == x {
        assert k < |front| ==> front[k] == subs[k];
      }
      if k :| 0 <= k < |front| && front[k].status == PassedTrade && front[k].symbol == x {
        assert subs[k] == front[k];
      }
    }
  }

  lemma UntradedReads(symbols: seq<string>, subs: seq<SubReport>, x: string)
    ensures x in Untraded(symbols, subs)
            <==> x in symbols && !exists k :: 0 <= k < |subs| && subs[k].status == PassedTrade && subs[k].symbol == x
  {
    WithoutMembers(symbols, Members(TradedSymbols(subs)));
    TradedReads(subs, x);
    hide Members;
  }

  // At least one trade and at most three are asked for.
  lemma ClampReads(n: nat)
    ensures Clamp(n) == if n <= 1 then 1 else if n == 2 then 2 else 3
  {
  }

  // The name written in capitals.
  predicate InCapitals(name: string, capitals: string) {
    && |capitals| == |name|
    && forall k | 0 <= k < |name| ::
         capitals[k] as int == if 'a' <= name[k] <= 'z' then name[k] as int - 32 else name[k] as int
  }

  lemma CapitalsRead(name: string, capitals: string)
    ensures InCapitals(name, capitals) <==> Capitals(name) == capitals
  {
    if InCapitals(name, capitals) {
      assert forall k | 0 <= k < |name| :: Capitals(name)[k] as int == capitals[k] as int;
    }
  }

  lemma {:induction false} KeepReads(requested: seq<string>, x: string)
    ensures x in Keep(requested) <==> (x == "BTC" || x == "ETH") && exists i :: 0 <= i < |requested| && InCapitals(requested[i], x)
  {
    hide Capitals;
    hide InCapitals;
    if requested != [] {
      var rest := requested[1..];
      KeepReads(rest, x);
      CapitalsRead(requested[0], x);
      if i :| 0 <= i < |rest| && InCapitals(rest[i], x) {
        assert requested[i + 1] == rest[i];
      }
      if i :| 0 <= i < |requested| && InCapitals(requested[i], x) {
        assert i > 0 ==> rest[i - 1] == requested[i];
      }
    }
  }

  // Of the symbols asked for, in capitals, only BTC and ETH are allowed; without any, both are.
  lemma AllowedReads(requested: seq<string>, x: string)
    ensures requested == [] ==> (x in Allowed(requested) <==> x == "BTC" || x == "ETH")
    ensures requested != [] ==>
              (x in Allowed(requested)
               <==> (x == "BTC" || x == "ETH") && exists i :: 0 <= i < |requested| && InCapitals(requested[i], x))
  {
    KeepReads(requested, x);
    if requested == [] {
      KeepReads(SYMBOLS, x);
      assert InCapitals(SYMBOLS[0], "BTC") && InCapitals(SYMBOLS[1], "ETH");
    }
  }
}
