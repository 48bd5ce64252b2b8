/** What the FIFO ledger conserves: bought = matched + open + dropped, for
    quantity, cost and buy fee, and the telescoped total PnL. */
module LedgerConservation {
  import opened Basics
  import opened FifoLots
  import opened RealSums
  import opened KeySort
  import opened FillLedger

  lemma DropWeight(q: seq<Lot>, p: real, k: Basis)
    requires Live(q) && 0.0 <= p <= Total(q)
    ensures Live(Drop(q, p))
    ensures TotalWeight(Drop(q, p), k) == TotalWeight(q, k) - Cumulative(q, p, k)
  {
    hide Cumulative;
    hide TotalWeight;
    hide Drop;
    DropTotals(q, p);
    TotalNonNegative(q);
    DropShifts(q, p, Total(q), k);
    CumulativeEnds(Drop(q, p), Total(q), k);
    CumulativeEnds(q, p + Total(q), k);
  }

  // One fill moves quantity and money between queue, matched and dropped only.
  lemma FillConserves(q: seq<Lot>, f: Fill, k: Basis)
    requires Live(q)
    ensures var t, q' := Effect(q, f), StepQueue(q, f);
            && Total(q') + t.matched.quantity + t.dropped.quantity == Total(q) + t.bought.quantity
            && TotalWeight(q', k) + Weight(t.matched, k) + Weight(t.dropped, k)
               == TotalWeight(q, k) + Weight(t.bought, k)
            && t.matched.quantity >= 0.0
            && 0.0 <= t.dropped.quantity <= DUST * t.sellCount as real
            && t.gross == t.sellValue - t.matched.cost
  {
    hide Consume;
    hide Drop;
    if IsBuy(f) {
      AppendTotals(q, LotOf(f), k);
    } else if IsSell(f) {
      var m := Min(f.quantity, Total(q));
      TotalNonNegative(q);
      ConsumeQuantities(q, f.quantity);
      ConsumeCharges(q, f.quantity, k);
      DropTotals(q, Snap(q, m));
      DropWeight(q, Snap(q, m), k);
    }
  }

  // Changing one market's queue changes a sum over markets by that market's term.
  lemma SumAfterUpdate(queues: Queues, market: string, q: seq<Lot>, f: string -> real, g: string -> real)
    requires forall x | x != market :: f(x) == g(x)
    requires market !in queues ==> f(market) == 0.0
    ensures SetSum(queues[market := q].Keys, g) == SetSum(queues.Keys, f) - f(market) + g(market)
  {
    var rest := queues.Keys - {market};
    SetSumPick(queues[market := q].Keys, market, g);
    assert queues[market := q].Keys - {market} == rest;
    SetSumAgree(rest, f, g);
    if market in queues {
      SetSumPick(queues.Keys, market, f);
    } else {
      assert rest == queues.Keys;
    }
  }

  ghost predicate Balanced(b: Book, k: Basis) {
    var t := b.tally;
    && t.bought.quantity == t.matched.quantity + t.dropped.quantity + SetSum(b.queues.Keys, OpenQuantity(b.queues))
    && Weight(t.bought, k) == Weight(t.matched, k) + Weight(t.dropped, k)
                              + SetSum(b.queues.Keys, OpenWeight(b.queues, k))
    && t.matched.quantity >= 0.0
    && 0.0 <= t.dropped.quantity <= DUST * t.sellCount as real
    && t.gross == t.sellValue - t.matched.cost
  }

  lemma EmptyQueueWeighsNothing(k: Basis)
    ensures Total([]) == 0.0 && TotalWeight([], k) == 0.0
  {
  }

  lemma StepBalances(b: Book, f: Fill, k: Basis)
    requires Balanced(b, k) && Live(QueueOf(b.queues, f.market))
    ensures Balanced(Step(b, f), k)
  {
    hide Effect;
    hide StepQueue;
    hide Total;
    hide TotalWeight;
    hide SetSum;
    var q := QueueOf(b.queues, f.market);
    FillConserves(q, f, k);
    EmptyQueueWeighsNothing(k);
    var q' := StepQueue(q, f);
    var queues' := Step(b, f).queues;
    SumAfterUpdate(b.queues, f.market, q', OpenQuantity(b.queues), OpenQuantity(queues'));
    SumAfterUpdate(b.queues, f.market, q', OpenWeight(b.queues, k), OpenWeight(queues', k));
    var n, n' := b.tally.sellCount, Effect(q, f).sellCount;
    assert DUST * (n + n') as real == DUST * n as real + DUST * n' as real;
  }

  // Conservation over a whole ledger, with the dust bound.
  lemma {:induction false} Conservation(rows: seq<Fill>, k: Basis)
    ensures Balanced(Run(rows), k)
  {
    if rows != [] {
      var before, f := rows[..|rows| - 1], rows[|rows| - 1];
      Conservation(before, k);
      QueueIsLive(before, f.market);
      StepBalances(Run(before), f, k);
    }
  }

  // The realised fee is the buy fee of the matched lots plus every sell fee.
  lemma {:induction false} RealizedFeeIsMatched(rows: seq<Fill>)
    ensures TradeFees(Run(rows).trades) == Run(rows).tally.matched.fee + Run(rows).tally.sellFee
  {
    hide Consume;
    if rows != [] {
      var before, f := rows[..|rows| - 1], rows[|rows| - 1];
      RealizedFeeIsMatched(before);
      var ts, ts' := Run(before).trades, Run(rows).trades;
      if IsSell(f) {
        assert ts'[..|ts'| - 1] == ts;
      }
    }
  }

  // Each trade nets its own gross against its own fees, and trades add up to the gross.
  function TradeGross(trades: seq<Trade>): real {
    if trades == [] then 0.0 else TradeGross(trades[..|trades| - 1]) + trades[|trades| - 1].gross
  }

  function TradeNet(trades: seq<Trade>): real {
    if trades == [] then 0.0 else TradeNet(trades[..|trades| - 1]) + trades[|trades| - 1].net
  }

  lemma {:induction false} TradesAddUp(rows: seq<Fill>)
    ensures var b := Run(rows);
            && |b.trades| == b.tally.sellCount
            && TradeGross(b.trades) == b.tally.gross
            && TradeNet(b.trades) == b.tally.gross - TradeFees(b.trades)
  {
    hide Consume;
    if rows != [] {
      var before, f := rows[..|rows| - 1], rows[|rows| - 1];
      TradesAddUp(before);
      var ts, ts' := Run(before).trades, Run(rows).trades;
      if IsSell(f) {
        assert ts'[..|ts'| - 1] == ts;
      }
    }
  }

  // Total PnL no longer mentions any single match: sells minus buys plus what is open,
  // minus fees actually realised, plus the cost of the dropped dust.
  lemma TotalTelescopes(rows: seq<Fill>, prices: map<string, real>, feeRate: real)
    ensures var r, b := ReportOf(rows, prices, feeRate), Run(StableSort(rows, ReplayKey()));
            var openValue := SetSum(b.queues.Keys, OpenValue(b.queues, prices));
            var openFee := SetSum(b.queues.Keys, OpenWeight(b.queues, FeeBasis));
            var dropped := b.tally.dropped;
            && 0.0 <= dropped.quantity <= 0.000000000001 * r.sellCount as real
            && r.total == r.sellValue - r.buyValue + openValue + dropped.cost
                          - (r.buyFeeTotal - openFee - dropped.fee) - r.sellFeeTotal - r.exitFee
  {
    hide Run;
    hide StableSort;
    hide TotalWeight;
    hide Total;
    hide TradeFees;
    hide MarketExitFee;
    var ordered := StableSort(rows, ReplayKey());
    var b := Run(ordered);
    Conservation(ordered, CostBasis);
    Conservation(ordered, FeeBasis);
    RealizedFeeIsMatched(ordered);
    SetSumAdd(b.queues.Keys, Unrealized(b.queues, prices), OpenWeight(b.queues, CostBasis), OpenValue(b.queues, prices));
  }

  // ----- the money lost with the dust

  predicate PricedWithin(q: seq<Lot>, k: Basis, cap: real) {
    forall i | 0 <= i < |q| :: 0.0 <= Weight(q[i], k) <= cap * q[i].quantity
  }

  lemma ChargeWithin(l: Lot, length: real, k: Basis, cap: real)
    requires l.quantity > 0.0 && 0.0 <= length && 0.0 <= Weight(l, k) <= cap * l.quantity
    ensures 0.0 <= Charge(l, length, k) <= cap * length
  {
    var u := UnitWeight(l, k);
    UnitWithin(Weight(l, k), l.quantity, cap);
    assert 0.0 <= u <= cap;
    assert 0.0 <= length * u <= length * cap;
  }

  lemma UnitWithin(w: real, n: real, cap: real)
    requires n > 0.0 && 0.0 <= w <= cap * n
    ensures 0.0 <= w / n <= cap
  {
    assert (cap * n) / n == cap by { QuotientOfProduct(cap, n); }
  }

  lemma {:induction false} CumulativeWithin(q: seq<Lot>, a: real, b: real, k: Basis, cap: real)
    requires Live(q) && a <= b && PricedWithin(q, k, cap) && cap >= 0.0
    ensures 0.0 <= Cumulative(q, b, k) - Cumulative(q, a, k) <= cap * (b - a)
    decreases |q|
  {
    if q != [] {
      hide Charge;
      var l, n := q[0], q[0].quantity;
      var c := Clip(b, n) - Clip(a, n);
      ChargeDifference(l, Clip(b, n), Clip(a, n), k);
      ChargeWithin(l, c, k, cap);
      TailsWithin(q, a, b, k, cap, c);
    } else {
      assert 0.0 <= cap * (b - a);
    }
  }

  // Beyond the first lot only the length it does not cover is left to charge.
  lemma {:induction false} TailsWithin(q: seq<Lot>, a: real, b: real, k: Basis, cap: real, c: real)
    requires Live(q) && q != [] && a <= b && PricedWithin(q, k, cap) && cap >= 0.0
    requires c == Clip(b, q[0].quantity) - Clip(a, q[0].quantity)
    ensures var n := q[0].quantity;
            0.0 <= Cumulative(q[1..], b - n, k) - Cumulative(q[1..], a - n, k) <= cap * (b - a) - cap * c
    decreases |q|, 0
  {
    hide Cumulative;
    var n, tail := q[0].quantity, q[1..];
    var a', b' := Max(a - n, 0.0), Max(b - n, 0.0);
    CumulativeEnds(tail, a - n, k);
    CumulativeEnds(tail, b - n, k);
    CumulativeEnds(tail, 0.0, k);
    CumulativeWithin(tail, a', b', k, cap);
    assert b' - a' <= b - a - c;
    assert cap * (b' - a') <= cap * (b - a - c) == cap * (b - a) - cap * c;
  }

  // If no BUY cost more than `cap` a unit, the dropped cost is at most cap times the
  // dropped quantity; the same for fees.
  lemma {:induction false} DroppedWeightBound(rows: seq<Fill>, k: Basis, cap: real)
    requires cap >= 0.0
    requires forall f | f in rows && IsBuy(f) :: 0.0 <= Weight(LotOf(f), k) <= cap * f.quantity
    ensures var t := Run(rows).tally; 0.0 <= Weight(t.dropped, k) <= cap * t.dropped.quantity
  {
    hide Effect;
    hide StepQueue;
    hide TradeOf;
    if rows != [] {
      var before, f := rows[..|rows| - 1], rows[|rows| - 1];
      DroppedWeightBound(before, k, cap);
      EffectDroppedBound(before, f, k, cap);
      var d, d' := Run(before).tally.dropped.quantity, Effect(QueueOf(Run(before).queues, f.market), f).dropped.quantity;
      assert cap * (d + d') == cap * d + cap * d';
    }
  }

  lemma EffectDroppedBound(before: seq<Fill>, f: Fill, k: Basis, cap: real)
    requires cap >= 0.0
    requires forall g | g in before && IsBuy(g) :: 0.0 <= Weight(LotOf(g), k) <= cap * g.quantity
    ensures var d := Effect(QueueOf(Run(before).queues, f.market), f).dropped;
            0.0 <= Weight(d, k) <= cap * d.quantity
  {
    hide Run;
    hide Buys;
    hide Pointer;
    hide OverlapWeight;
    hide Snap;
    hide Drop;
    hide Total;
    hide Consume;
    hide Cumulative;
    if IsSell(f) {
      SellChargesOverlaps(before, f, k);
      var bs, e := Buys(before, f.market), SellEnd(before, f);
      BuysPriced(before, f.market, k, cap);
      QueueIsResidual(before, f.market);
      SellReaches(bs, Pointer(before, f.market), f.quantity);
      OverlapIsDifference(bs, 0.0, e, Snap(bs, e), k);
      CumulativeWithin(bs, e, Snap(bs, e), k, cap);
    }
  }

  lemma {:induction false} BuysPriced(rows: seq<Fill>, market: string, k: Basis, cap: real)
    requires forall f | f in rows && IsBuy(f) :: 0.0 <= Weight(LotOf(f), k) <= cap * f.quantity
    ensures PricedWithin(Buys(rows, market), k, cap)
  {
    if rows != [] {
      BuysPriced(rows[..|rows| - 1], market, k, cap);
      assert rows[|rows| - 1] in rows;
    }
  }
}
