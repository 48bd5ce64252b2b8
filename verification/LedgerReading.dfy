/** The ledger's report read off the rows themselves: the order of the replay, each total
    as a sum over the rows, each trade by what it was charged, and the open positions. */
module LedgerReading {
  import opened Basics
  import opened FifoLots
  import opened KeySort
  import opened RealSums
  import opened FillLedger
  import opened LedgerConservation
  import opened LedgerDecomposition

  // ----- the order of the replay

  // By execution time, and by id within one time.
  predicate InExecutionOrder(o: seq<Fill>) {
    forall i, j | 0 <= i < j < |o| :: o[i].at < o[j].at || (o[i].at == o[j].at && o[i].id <= o[j].id)
  }

  function Stamped(at: int, id: int): Fill -> bool { (f: Fill) => f.at == at && f.id == id }

  // Rows with the same time and id stand in the order in which they came.
  ghost predicate KeepsTies(o: seq<Fill>, rows: seq<Fill>) {
    forall at, id :: Filter(o, Stamped(at, id)) == Filter(rows, Stamped(at, id))
  }

  lemma StampedRowsKeepTheirOrder(rows: seq<Fill>, at: int, id: int)
    ensures Filter(StableSort(rows, ReplayKey()), Stamped(at, id)) == Filter(rows, Stamped(at, id))
  {
    var p := Stamped(at, id);
    FilterSort(rows, ReplayKey(), p);
    FilterMembers(rows, p);
    var same := Filter(rows, p);
    assert forall i | 0 <= i < |same| :: same[i] in same;
    SortedIsFixed(same, ReplayKey());
  }

  lemma RowInItsFilter(b: seq<Fill>, f: Fill)
    requires f in b
    ensures Filter(b, Stamped(f.at, f.id)) != Filter([], Stamped(f.at, f.id))
  {
    FilterMembers(b, Stamped(f.at, f.id));
    assert f in Filter(b, Stamped(f.at, f.id));
  }

  lemma NothingTied(b: seq<Fill>)
    requires KeepsTies([], b)
    ensures b == []
  {
    hide Filter;
    if b != [] {
      var f := b[0];
      assert Filter([], Stamped(f.at, f.id)) == Filter(b, Stamped(f.at, f.id));
      RowInItsFilter(b, f);
    }
  }

  // Rows in order are determined by their rows of each time and id.
  lemma {:induction false} OrderAndTiesDetermine(a: seq<Fill>, b: seq<Fill>)
    requires InExecutionOrder(a) && InExecutionOrder(b) && KeepsTies(a, b)
    ensures a == b
  {
    if a == [] {
      NothingTied(b);
    } else {
      SameHead(a, b);
      var a', b' := a[1..], b[1..];
      forall at, id ensures Filter(a', Stamped(at, id)) == Filter(b', Stamped(at, id)) {
        var x, y := Filter(a, Stamped(at, id)), Filter(b, Stamped(at, id));
        assert x == y;
        if a[0].at == at && a[0].id == id {
          assert x[1..] == Filter(a', Stamped(at, id)) && y[1..] == Filter(b', Stamped(at, id));
        }
      }
      OrderAndTiesDetermine(a', b');
      assert a == [a[0]] + a' && b == [b[0]] + b';
    }
  }

  lemma StampIn(s: seq<Fill>, f: Fill, t: seq<Fill>)
    requires f in s && KeepsTies(s, t)
    ensures f in t
  {
    var p := Stamped(f.at, f.id);
    FilterMembers(s, p);
    FilterMembers(t, p);
    assert f in Filter(s, p);
    assert Filter(s, p) == Filter(t, p);
  }

  lemma SameHead(a: seq<Fill>, b: seq<Fill>)
    requires InExecutionOrder(a) && InExecutionOrder(b) && KeepsTies(a, b) && a != []
    ensures b != [] && a[0] == b[0]
  {
    StampIn(a, a[0], b);
    assert forall at, id :: Filter(b, Stamped(at, id)) == Filter(a, Stamped(at, id));
    StampIn(b, b[0], a);
    var i :| 0 <= i < |b| && b[i] == a[0];
    var j :| 0 <= j < |a| && a[j] == b[0];
    assert a[0].at == b[0].at && a[0].id == b[0].id;
    var p := Stamped(a[0].at, a[0].id);
    assert Filter(a, p)[0] == a[0] && Filter(b, p)[0] == b[0];
  }

  lemma SortIsExecutionOrder(rows: seq<Fill>, o: seq<Fill>)
    requires InExecutionOrder(o) && KeepsTies(o, rows)
    ensures StableSort(rows, ReplayKey()) == o
  {
    var s := StableSort(rows, ReplayKey());
    SortKeeps(rows, ReplayKey());
    forall i, j | 0 <= i < j < |s| ensures s[i].at < s[j].at || (s[i].at == s[j].at && s[i].id <= s[j].id) {
      assert !Before(ReplayKey()(s[j]), ReplayKey()(s[i]));
    }
    forall at, id ensures Filter(s, Stamped(at, id)) == Filter(o, Stamped(at, id)) {
      StampedRowsKeepTheirOrder(rows, at, id);
      assert Filter(o, Stamped(at, id)) == Filter(rows, Stamped(at, id));
    }
    OrderAndTiesDetermine(s, o);
  }

  // ----- the figures of a replay

  function OpenLots(b: Book, market: string): seq<Lot> {
    if market in b.queues then b.queues[market] else []
  }

  function Price(prices: map<string, real>, market: string): real {
    if market in prices then prices[market] else 0.0
  }

  function CostAt(b: Book): string -> real { m => TotalWeight(OpenLots(b, m), CostBasis) }

  function UnitsAt(b: Book): string -> real { m => Total(OpenLots(b, m)) }

  function PaperPnlAt(b: Book, prices: map<string, real>): string -> real {
    m => Total(OpenLots(b, m)) * Price(prices, m) - TotalWeight(OpenLots(b, m), CostBasis)
  }

  function ExitFeeAt(b: Book, prices: map<string, real>, feeRate: real): string -> real {
    m => var fee := Total(OpenLots(b, m)) * Price(prices, m) * feeRate; if fee > 0.0 then fee else 0.0
  }

  function FeesOf(trades: seq<Trade>): real {
    if trades == [] then 0.0
    else FeesOf(trades[..|trades| - 1]) + (trades[|trades| - 1].buyFee + trades[|trades| - 1].sellFee)
  }

  lemma {:induction false} FeesAgree(trades: seq<Trade>)
    ensures FeesOf(trades) == TradeFees(trades)
  {
    if trades != [] {
      FeesAgree(trades[..|trades| - 1]);
    }
  }

  // The report of rows that arrive in any order is that of their replay by execution time
  // and id, with rows that share both in the order in which they came.
  lemma ReportIsReplayInOrder(rows: seq<Fill>, o: seq<Fill>, prices: map<string, real>, feeRate: real)
    requires InExecutionOrder(o) && KeepsTies(o, rows)
    ensures var r, b := ReportOf(rows, prices, feeRate), Run(o);
            && r.fillCount == |rows| && r.buyCount == b.tally.buyCount && r.sellCount == b.tally.sellCount
            && r.buyValue == b.tally.bought.cost && r.sellValue == b.tally.sellValue && r.gross == b.tally.gross
            && r.buyFeeTotal == b.tally.bought.fee && r.sellFeeTotal == b.tally.sellFee && r.nonKrwFee == b.tally.nonKrwFee
            && r.unpaired == b.tally.unpaired && r.trades == b.trades
            && r.realizedFee == FeesOf(b.trades) && r.net == r.gross - r.realizedFee
            && r.openCost == SetSum(b.queues.Keys, CostAt(b)) && r.openQuantity == SetSum(b.queues.Keys, UnitsAt(b))
            && r.unrealized == SetSum(b.queues.Keys, PaperPnlAt(b, prices))
            && r.exitFee == SetSum(b.queues.Keys, ExitFeeAt(b, prices, feeRate))
            && r.total == r.net + r.unrealized - r.exitFee
  {
    hide Run;
    hide StableSort;
    hide TradeFees;
    hide FeesOf;
    hide InExecutionOrder;
    hide KeepsTies;
    hide SetSum;
    hide CostAt;
    hide UnitsAt;
    hide PaperPnlAt;
    hide ExitFeeAt;
    SortIsExecutionOrder(rows, o);
    FeesAgree(Run(o).trades);
    OpenFiguresAgree(Run(o), prices, feeRate);
  }

  lemma OpenFiguresAgree(b: Book, prices: map<string, real>, feeRate: real)
    ensures SetSum(b.queues.Keys, OpenWeight(b.queues, CostBasis)) == SetSum(b.queues.Keys, CostAt(b))
    ensures SetSum(b.queues.Keys, OpenQuantity(b.queues)) == SetSum(b.queues.Keys, UnitsAt(b))
    ensures SetSum(b.queues.Keys, Unrealized(b.queues, prices)) == SetSum(b.queues.Keys, PaperPnlAt(b, prices))
    ensures SetSum(b.queues.Keys, ExitFee(b.queues, prices, feeRate)) == SetSum(b.queues.Keys, ExitFeeAt(b, prices, feeRate))
  {
    hide Total;
    hide TotalWeight;
    hide SetSum;
    var markets := b.queues.Keys;
    SetSumAgree(markets, CostAt(b), OpenWeight(b.queues, CostBasis));
    SetSumAgree(markets, UnitsAt(b), OpenQuantity(b.queues));
    SetSumAgree(markets, PaperPnlAt(b, prices), Unrealized(b.queues, prices));
    SetSumAgree(markets, ExitFeeAt(b, prices, feeRate), ExitFee(b.queues, prices, feeRate));
  }

  // With no two rows of the same time and id, any strictly ordered arrangement is the replay.
  lemma DistinctRowsKeepTies(rows: seq<Fill>, o: seq<Fill>)
    requires multiset(o) == multiset(rows)
    requires forall i, j | 0 <= i < j < |o| :: o[i].at < o[j].at || (o[i].at == o[j].at && o[i].id < o[j].id)
    ensures InExecutionOrder(o) && KeepsTies(o, rows)
  {
    var key := ReplayKey();
    assert Sorted(o, key);
    forall i, j | 0 <= i < j < |o| ensures key(o[i]) != key(o[j]) {
    }
    SortIgnoresArrival(o, rows, key);
    SortedIsFixed(o, key);
    forall at, id ensures Filter(o, Stamped(at, id)) == Filter(rows, Stamped(at, id)) {
      StampedRowsKeepTheirOrder(rows, at, id);
    }
  }

  // ----- totals as sums over the rows

  function Sum(rows: seq<Fill>, of_: Fill -> real): real {
    if rows == [] then 0.0 else of_(rows[0]) + Sum(rows[1..], of_)
  }

  lemma {:induction false} SumAppends(rows: seq<Fill>, f: Fill, of_: Fill -> real)
    ensures Sum(rows + [f], of_) == Sum(rows, of_) + of_(f)
  {
    if rows == [] {
      assert rows + [f] == [f] && [f][1..] == [];
    } else {
      assert (rows + [f])[1..] == rows[1..] + [f];
      SumAppends(rows[1..], f, of_);
    }
  }

  lemma {:induction false} SumOfInsert(x: Fill, s: seq<Fill>, of_: Fill -> real)
    ensures Sum(Insert(x, s, ReplayKey()), of_) == of_(x) + Sum(s, of_)
  {
    if s != [] && Before(ReplayKey()(s[0]), ReplayKey()(x)) {
      SumOfInsert(x, s[1..], of_);
      assert ([s[0]] + Insert(x, s[1..], ReplayKey()))[1..] == Insert(x, s[1..], ReplayKey());
    } else {
      assert ([x] + s)[1..] == s;
    }
  }

  lemma {:induction false} SumOfSort(rows: seq<Fill>, of_: Fill -> real)
    ensures Sum(StableSort(rows, ReplayKey()), of_) == Sum(rows, of_)
  {
    if rows != [] {
      SumOfSort(rows[1..], of_);
      SumOfInsert(rows[0], StableSort(rows[1..], ReplayKey()), of_);
    }
  }

  // What one row adds to each total of the report.
  function OneBuy(): Fill -> real { (f: Fill) => if f.side.Buy? && f.quantity > 0.0 then 1.0 else 0.0 }
  function OneSell(): Fill -> real { (f: Fill) => if f.side.Sell? && f.quantity > 0.0 then 1.0 else 0.0 }
  function Bought(): Fill -> real { (f: Fill) => if f.side.Buy? && f.quantity > 0.0 then f.value else 0.0 }
  function BoughtUnits(): Fill -> real { (f: Fill) => if f.side.Buy? && f.quantity > 0.0 then f.quantity else 0.0 }
  function Sold(): Fill -> real { (f: Fill) => if f.side.Sell? && f.quantity > 0.0 then f.value else 0.0 }
  function BuyFee(): Fill -> real { (f: Fill) => if f.side.Buy? && f.quantity > 0.0 && f.feeIsKrw then f.fee else 0.0 }
  function SellFee(): Fill -> real { (f: Fill) => if f.side.Sell? && f.quantity > 0.0 && f.feeIsKrw then f.fee else 0.0 }
  function OtherFee(): Fill -> real { (f: Fill) => if f.feeIsKrw then 0.0 else f.fee }

  predicate TallySums(t: Tally, rows: seq<Fill>) {
    && t.buyCount as real == Sum(rows, OneBuy()) && t.sellCount as real == Sum(rows, OneSell())
    && t.bought == Lot(Sum(rows, BoughtUnits()), Sum(rows, Bought()), Sum(rows, BuyFee()))
    && t.sellValue == Sum(rows, Sold()) && t.sellFee == Sum(rows, SellFee()) && t.nonKrwFee == Sum(rows, OtherFee())
  }

  lemma TallySumsNext(t: Tally, t': Tally, rows: seq<Fill>, f: Fill, q: seq<Lot>)
    requires TallySums(t, rows) && t' == Plus(t, Effect(q, f))
    ensures TallySums(t', rows + [f])
  {
    hide Consume;
    hide Unpaired;
    SumAppends(rows, f, OneBuy());
    SumAppends(rows, f, OneSell());
    SumAppends(rows, f, BoughtUnits());
    SumAppends(rows, f, Bought());
    SumAppends(rows, f, BuyFee());
    SumAppends(rows, f, Sold());
    SumAppends(rows, f, SellFee());
    SumAppends(rows, f, OtherFee());
    hide Sum;
  }

  lemma {:induction false} RunTallySums(rows: seq<Fill>)
    ensures TallySums(Run(rows).tally, rows)
  {
    hide Effect;
    hide StepQueue;
    hide TallySums;
    if rows == [] {
      NothingSums();
    } else {
      var before, f := rows[..|rows| - 1], rows[|rows| - 1];
      RunTallySums(before);
      assert before + [f] == rows;
      TallySumsNext(Run(before).tally, Run(rows).tally, before, f, QueueOf(Run(before).queues, f.market));
    }
  }

  lemma NothingSums()
    ensures TallySums(Run([]).tally, [])
  {
  }

  // Counts, values and fees of a report are sums over its rows, whatever their order.
  lemma ReportTotalsAreSums(rows: seq<Fill>, prices: map<string, real>, feeRate: real)
    ensures var r := ReportOf(rows, prices, feeRate);
            && r.buyCount as real == Sum(rows, OneBuy()) && r.sellCount as real == Sum(rows, OneSell())
            && r.buyValue == Sum(rows, Bought()) && r.sellValue == Sum(rows, Sold())
            && r.buyFeeTotal == Sum(rows, BuyFee()) && r.sellFeeTotal == Sum(rows, SellFee())
            && r.nonKrwFee == Sum(rows, OtherFee())
  {
    hide Run;
    hide Sum;
    var o := StableSort(rows, ReplayKey());
    RunTallySums(o);
    SumOfSort(rows, OneBuy());
    SumOfSort(rows, OneSell());
    SumOfSort(rows, Bought());
    SumOfSort(rows, Sold());
    SumOfSort(rows, BuyFee());
    SumOfSort(rows, SellFee());
    SumOfSort(rows, OtherFee());
  }

  // ----- each SELL

  // The share of a SELL's value that found nothing to pair with; a rest of dust counts as none.
  function UnpairedValue(f: Fill, left: real): real
    requires f.quantity > 0.0
  {
    if left > 0.000000000001 then f.value * (left / f.quantity) else 0.0
  }

  function Krw(f: Fill): real { if f.feeIsKrw then f.fee else 0.0 }

  // What the j-th row of a replay, a SELL, adds: one trade with the overlaps as its basis
  // and buy fee, and the value of what it could not pair above the dust threshold.
  lemma SellIsRecorded(o: seq<Fill>, j: nat)
    requires j < |o| && o[j].side.Sell? && o[j].quantity > 0.0
    ensures Live(Buys(o, o[j].market))
    ensures Recorded(Run(o[..j]), Run(o[..j + 1]), o[j], Buys(o, o[j].market), Reached(o[..j], o[j].market),
                     Min(Reached(o[..j], o[j].market) + o[j].quantity, Total(Buys(o[..j], o[j].market))))
  {
    hide *;
    ChargedAsReached(o, j);
    RunStep(o, j);
    RecordedByStep(Run(o[..j]), o[j], Buys(o, o[j].market), Reached(o[..j], o[j].market),
                   Min(Reached(o[..j], o[j].market) + o[j].quantity, Total(Buys(o[..j], o[j].market))));
  }

  lemma ChargedAsReached(o: seq<Fill>, j: nat)
    requires j < |o| && o[j].side.Sell? && o[j].quantity > 0.0
    ensures var bs, from := Buys(o, o[j].market), Reached(o[..j], o[j].market);
            var to := Min(from + o[j].quantity, Total(Buys(o[..j], o[j].market)));
            var m := Effect(QueueOf(Run(o[..j]).queues, o[j].market), o[j]).matched;
            && Live(bs) && m.quantity == to - from
            && m.cost == OverlapWeight(bs, 0.0, from, to, CostBasis) && m.fee == OverlapWeight(bs, 0.0, from, to, FeeBasis)
  {
    hide Run;
    hide Buys;
    hide UsedUp;
    hide Total;
    hide Effect;
    hide Live;
    hide OverlapWeight;
    hide QueueOf;
    LedgerChargesOverlaps(o, j, CostBasis);
    LedgerChargesOverlaps(o, j, FeeBasis);
  }

  // How much of a market's bought quantity the rows have used up, dust included.
  function Reached(rows: seq<Fill>, market: string): real {
    UsedUp(rows, market).0 + UsedUp(rows, market).1
  }

  // One trade with the overlaps of [from, to) with the lots as its basis and buy fee, and
  // the value of what the SELL could not pair.
  predicate Recorded(before: Book, after: Book, f: Fill, bs: seq<Lot>, from: real, to: real)
    requires Live(bs) && f.quantity > 0.0
  {
    var basis, buyFee := OverlapWeight(bs, 0.0, from, to, CostBasis), OverlapWeight(bs, 0.0, from, to, FeeBasis);
    var left := f.quantity - (to - from);
    && after.trades == before.trades
         + [Trade(f.market, f.value, basis, f.value - basis, buyFee, Krw(f), f.value - basis - (buyFee + Krw(f)), left)]
    && after.tally.gross == before.tally.gross + (f.value - basis)
    && after.tally.unpaired == before.tally.unpaired + UnpairedValue(f, left)
  }

  lemma RecordedByStep(b: Book, f: Fill, bs: seq<Lot>, from: real, to: real)
    requires f.side.Sell? && f.quantity > 0.0 && Live(bs)
    requires var m := Effect(QueueOf(b.queues, f.market), f).matched;
             && m.quantity == to - from && m.cost == OverlapWeight(bs, 0.0, from, to, CostBasis)
             && m.fee == OverlapWeight(bs, 0.0, from, to, FeeBasis)
    ensures Recorded(b, Step(b, f), f, bs, from, to)
  {
    hide Effect;
    hide Step;
    hide TradeOf;
    hide OverlapWeight;
    hide UnpairedValue;
    hide Krw;
    hide QueueOf;
    StepReads(b, f);
    SellReads(QueueOf(b.queues, f.market), f);
  }

  lemma StepReads(b: Book, f: Fill)
    requires f.side.Sell? && f.quantity > 0.0
    ensures var x, q := Step(b, f), QueueOf(b.queues, f.market);
            && x.trades == b.trades + [TradeOf(q, f)]
            && x.tally.gross == b.tally.gross + Effect(q, f).gross
            && x.tally.unpaired == b.tally.unpaired + Effect(q, f).unpaired
  {
    hide Effect;
    hide TradeOf;
    hide StepQueue;
  }

  // The records of one SELL, by what it matched.
  lemma SellReads(q: seq<Lot>, f: Fill)
    requires f.side.Sell? && f.quantity > 0.0
    ensures var t := Effect(q, f);
            var m, left := t.matched, f.quantity - t.matched.quantity;
            && TradeOf(q, f) == Trade(f.market, f.value, m.cost, f.value - m.cost, m.fee, Krw(f),
                                      f.value - m.cost - (m.fee + Krw(f)), left)
            && t.gross == f.value - m.cost
            && t.unpaired == UnpairedValue(f, left)
  {
    hide Consume;
  }

  // A match of the lot: its share of the lot's cost and fee, and the lot as it was.
  predicate MatchedFrom(m: Match, l: Lot) {
    && 0.0 < m.quantity <= l.quantity && m.lotQuantityBefore == l.quantity && m.lotCostBefore == l.cost
    && m.costBasis * l.quantity == l.cost * m.quantity && m.allocatedBuyFee * l.quantity == l.fee * m.quantity
  }

  lemma MatchReads(l: Lot, used: real)
    requires 0.0 < used <= l.quantity
    ensures MatchedFrom(MatchOf(l, used), l)
  {
    assert used / l.quantity * l.quantity == used;
  }

  // The k-th match of a SELL is made with the k-th lot of the queue, and only what is dust
  // is left of a lot before the next one is touched.
  lemma {:induction false} MatchesRead(q: seq<Lot>, r: real)
    requires Live(q)
    ensures var ms := Consume(q, r).matched;
            && |ms| <= |q|
            && (forall k | 0 <= k < |ms| :: MatchedFrom(ms[k], q[k]))
            && (forall k | 0 <= k < |ms| - 1 :: q[k].quantity - ms[k].quantity <= 0.000000000001)
    decreases |q|
  {
    hide MatchedFrom;
    hide MatchOf;
    if q != [] && r > 0.0 {
      var used := Min(r, q[0].quantity);
      MatchReads(q[0], used);
      assert MatchOf(q[0], used).quantity == used by { MatchQuantity(q[0], used); }
      MatchesRead(q[1..], r - used);
    }
  }

  lemma MatchQuantity(l: Lot, used: real)
    ensures MatchOf(l, used).quantity == used
  {
  }

  // A row that is no SELL of a positive quantity adds no trade.
  lemma OthersAreNotRecorded(o: seq<Fill>, j: nat)
    requires j < |o| && !(o[j].side.Sell? && o[j].quantity > 0.0)
    ensures Run(o[..j + 1]).trades == Run(o[..j]).trades
    ensures Run(o[..j + 1]).tally.gross == Run(o[..j]).tally.gross && Run(o[..j + 1]).tally.unpaired == Run(o[..j]).tally.unpaired
  {
    RunStep(o, j);
    EffectCases(QueueOf(Run(o[..j]).queues, o[j].market), o[j]);
    hide Run;
    hide Effect;
    hide StepQueue;
  }

  // ----- the group of a row

  // The name of the symbol group: the row's own symbol, or what follows the last dash of
  // its market, or "unknown".
  lemma GroupNameReads(f: Fill, dash: bool, head: string, tail: string)
    requires f.market == (if dash then head + "-" + tail else tail) && '-' !in tail
    ensures f.symbol != "" ==> SymbolKey()(f) == f.symbol
    ensures f.symbol == "" && tail != "" ==> SymbolKey()(f) == tail
    ensures f.symbol == "" && tail == "" ==> SymbolKey()(f) == "unknown"
  {
    LastPart(f.market, dash, head, tail);
  }

  lemma {:induction false} FirstDashAtMost(s: string, n: nat)
    requires n < |s| && s[n] == '-'
    ensures '-' in s && FirstDash(s) <= n
  {
    if s[0] != '-' {
      FirstDashAtMost(s[1..], n - 1);
    }
  }

  lemma AfterDash(market: string, i: nat)
    requires '-' in market && i == FirstDash(market)
    ensures AfterLastDash(market) == AfterLastDash(market[i + 1..])
  {
    hide FirstDash;
  }

  lemma TailAfter(head: string, tail: string, i: nat)
    requires i <= |head|
    ensures (head + "-" + tail)[i + 1..] == if i < |head| then head[i + 1..] + "-" + tail else tail
  {
  }

  lemma {:induction false} LastPart(market: string, dash: bool, head: string, tail: string)
    requires market == (if dash then head + "-" + tail else tail) && '-' !in tail
    ensures AfterLastDash(market) == tail
    decreases |market|
  {
    if dash {
      hide AfterLastDash;
      hide FirstDash;
      assert market[|head|] == '-';
      FirstDashAtMost(market, |head|);
      var i := FirstDash(market);
      AfterDash(market, i);
      TailAfter(head, tail, i);
      var rest := market[i + 1..];
      if i < |head| {
        LastPart(rest, true, head[i + 1..], tail);
      } else {
        LastPart(rest, false, "", tail);
      }
    }
  }
}
