/** Reporting one fill as two consecutive partial fills does not change the
    accounting, as long as no residual falls under the dust threshold. */
module LedgerSplitting {
  import opened Basics
  import opened FifoLots
  import opened RealSums
  import opened FillLedger
  import opened LedgerConservation
  import opened LedgerDecomposition
  import opened KeySort

  // Two queues of the same total whose first x units cost the same, for every x.
  ghost predicate SameShape(a: seq<Lot>, b: seq<Lot>) {
    && Live(a) && Live(b)
    && Total(a) == Total(b)
    && forall k: Basis, x: real :: Cumulative(a, x, k) == Cumulative(b, x, k)
  }

  lemma SameShapeWeights(a: seq<Lot>, b: seq<Lot>, k: Basis)
    requires SameShape(a, b)
    ensures TotalWeight(a, k) == TotalWeight(b, k)
  {
    CumulativeEnds(a, Total(a), k);
    CumulativeEnds(b, Total(b), k);
  }

  lemma AppendKeepsShape(a: seq<Lot>, b: seq<Lot>, l: Lot)
    requires SameShape(a, b) && l.quantity > 0.0
    ensures SameShape(a + [l], b + [l])
  {
    hide Charge;
    AppendTotals(a, l, CostBasis);
    AppendTotals(b, l, CostBasis);
    forall k: Basis, x: real ensures Cumulative(a + [l], x, k) == Cumulative(b + [l], x, k) {
      AppendCumulative(a, l, x, k);
      AppendCumulative(b, l, x, k);
    }
  }

  function Scaled(share: real, x: real): real { share * x }

  // A part of a lot with the same unit cost and unit fee.
  function Part(l: Lot, share: real): Lot {
    Lot(Scaled(share, l.quantity), Scaled(share, l.cost), Scaled(share, l.fee))
  }

  lemma PartCharges(l: Lot, share: real, length: real, k: Basis)
    requires l.quantity > 0.0 && share > 0.0
    ensures Part(l, share).quantity > 0.0
    ensures Charge(Part(l, share), length, k) == Charge(l, length, k)
  {
    var p := Part(l, share);
    assert p.quantity > 0.0;
    var u := UnitWeight(l, k);
    assert Weight(l, k) == u * l.quantity;
    assert Weight(p, k) == share * Weight(l, k) == u * p.quantity;
    QuotientOfProduct(u, p.quantity);
  }

  lemma SplitLotKeepsShape(q: seq<Lot>, l: Lot, share: real)
    requires Live(q) && l.quantity > 0.0 && 0.0 < share < 1.0
    ensures SameShape(q + [l], q + [Part(l, share)] + [Part(l, 1.0 - share)])
  {
    hide Charge;
    hide Scaled;
    var a, b := Part(l, share), Part(l, 1.0 - share);
    SharesAddUp(l.quantity, share);
    AppendTotals(q, l, CostBasis);
    AppendTotals(q, a, CostBasis);
    AppendTotals(q + [a], b, CostBasis);
    forall k: Basis, x: real ensures Cumulative(q + [l], x, k) == Cumulative(q + [a] + [b], x, k) {
      AppendCumulative(q, l, x, k);
      AppendCumulative(q, a, x, k);
      AppendCumulative(q + [a], b, x, k);
      var y := x - Total(q);
      assert x - Total(q + [a]) == y - a.quantity;
      PartCharges(l, share, Clip(y, a.quantity), k);
      PartCharges(l, 1.0 - share, Clip(y - a.quantity, b.quantity), k);
      assert Clip(y, l.quantity) == Clip(y, a.quantity) + Clip(y - a.quantity, b.quantity);
      ChargeDifference(l, Clip(y, l.quantity), Clip(y, a.quantity), k);
    }
    assert Live(q + [l]) && Live(q + [a] + [b]) by {
      AppendCumulative(q, l, 0.0, CostBasis);
      AppendCumulative(q, a, 0.0, CostBasis);
      AppendCumulative(q + [a], b, 0.0, CostBasis);
    }
  }

  // What a SELL that leaves no dust does, in terms of the shape only.
  lemma CleanSell(q: seq<Lot>, r: real, k: Basis)
    requires Live(q) && r > 0.0
    requires Consume(q, r).dropped.quantity == 0.0
    ensures var o, m := Consume(q, r), Min(r, Total(q));
            && 0.0 <= m <= Total(q)
            && o.remaining == r - m
            && Charged(o, k) == Cumulative(q, m, k)
            && o.queue == Drop(q, m)
            && Live(o.queue) && Total(o.queue) == Total(q) - m
            && Weight(o.dropped, k) == 0.0
  {
    hide Consume;
    hide Drop;
    hide Cumulative;
    TotalNonNegative(q);
    ConsumeQuantities(q, r);
    ConsumeCharges(q, r, k);
    DropTotals(q, Min(r, Total(q)));
  }

  lemma DropKeepsShape(a: seq<Lot>, b: seq<Lot>, p: real)
    requires SameShape(a, b) && 0.0 <= p <= Total(a)
    ensures SameShape(Drop(a, p), Drop(b, p))
  {
    hide Drop;
    hide Cumulative;
    DropTotals(a, p);
    DropTotals(b, p);
    forall k: Basis, x: real ensures Cumulative(Drop(a, p), x, k) == Cumulative(Drop(b, p), x, k) {
      if x >= 0.0 {
        DropShifts(a, p, x, k);
        DropShifts(b, p, x, k);
      } else {
        CumulativeEnds(Drop(a, p), x, k);
        CumulativeEnds(Drop(b, p), x, k);
      }
    }
  }

  // ----- books

  // Every figure of the tally except the two fill counters and the unpaired value.
  predicate SameMoney(a: Tally, b: Tally) {
    && a.bought == b.bought && a.matched == b.matched && a.dropped == b.dropped
    && a.gross == b.gross && a.sellValue == b.sellValue && a.sellFee == b.sellFee
    && a.nonKrwFee == b.nonKrwFee
  }

  ghost predicate SameBooks(a: Book, b: Book) {
    && SameMoney(a.tally, b.tally)
    && a.queues.Keys == b.queues.Keys
    && forall m :: SameShape(QueueOf(a.queues, m), QueueOf(b.queues, m))
  }

  // The guard of the dust branch never fired.
  predicate NoDust(rows: seq<Fill>) {
    Run(rows).tally.dropped.quantity == 0.0
  }

  lemma CleanEffect(a: seq<Lot>, b: seq<Lot>, f: Fill)
    requires SameShape(a, b)
    requires Effect(a, f).dropped.quantity == 0.0 && Effect(b, f).dropped.quantity == 0.0
    ensures SameMoney(Effect(a, f), Effect(b, f))
    ensures SameShape(StepQueue(a, f), StepQueue(b, f))
  {
    hide Consume;
    hide Cumulative;
    if IsBuy(f) {
      AppendKeepsShape(a, b, LotOf(f));
    } else if IsSell(f) {
      CleanSell(a, f.quantity, CostBasis);
      CleanSell(b, f.quantity, CostBasis);
      CleanSell(a, f.quantity, FeeBasis);
      CleanSell(b, f.quantity, FeeBasis);
      var m := Min(f.quantity, Total(a));
      assert Cumulative(a, m, CostBasis) == Cumulative(b, m, CostBasis);
      assert Cumulative(a, m, FeeBasis) == Cumulative(b, m, FeeBasis);
      DropKeepsShape(a, b, m);
    }
  }

  lemma StepKeepsSameBooks(a: Book, b: Book, f: Fill)
    requires SameBooks(a, b)
    requires Effect(QueueOf(a.queues, f.market), f).dropped.quantity == 0.0
    requires Effect(QueueOf(b.queues, f.market), f).dropped.quantity == 0.0
    ensures SameBooks(Step(a, f), Step(b, f))
  {
    hide Effect;
    hide StepQueue;
    hide SameShape;
    CleanEffect(QueueOf(a.queues, f.market), QueueOf(b.queues, f.market), f);
    var a', b' := Step(a, f), Step(b, f);
    forall m ensures SameShape(QueueOf(a'.queues, m), QueueOf(b'.queues, m)) {
      assert SameShape(QueueOf(a.queues, m), QueueOf(b.queues, m));
    }
  }

  // Dropped quantities never cancel, so a clean run is clean at every fill.
  lemma NoDustBefore(rows: seq<Fill>, f: Fill)
    requires NoDust(rows + [f])
    ensures NoDust(rows)
    ensures Effect(QueueOf(Run(rows).queues, f.market), f).dropped.quantity == 0.0
  {
    hide Effect;
    assert (rows + [f])[..|rows|] == rows;
    Conservation(rows, CostBasis);
    QueueIsLive(rows, f.market);
    FillConserves(QueueOf(Run(rows).queues, f.market), f, CostBasis);
  }

  // ----- where a SELL stops

  // A SELL of r units leaves no residual under the dust threshold.
  predicate StopsClean(q: seq<Lot>, r: real) {
    Snap(q, Min(r, Total(q))) == Min(r, Total(q))
  }

  // The same for a row of the ledger, by the fills in front of it.
  predicate EndsClean(before: seq<Fill>, f: Fill) {
    Snap(Buys(before, f.market), SellEnd(before, f)) == SellEnd(before, f)
  }

  lemma EndsCleanMeans(before: seq<Fill>, f: Fill)
    requires IsSell(f)
    ensures EndsClean(before, f) <==> Effect(QueueOf(Run(before).queues, f.market), f).dropped.quantity == 0.0
    ensures EndsClean(before, f) <==> StopsClean(QueueOf(Run(before).queues, f.market), f.quantity)
  {
    hide Run;
    hide Effect;
    hide Drop;
    hide Snap;
    hide Total;
    QueueIsResidual(before, f.market);
    SellChargesOverlaps(before, f, CostBasis);
    SellReaches(Buys(before, f.market), Pointer(before, f.market), f.quantity);
  }

  lemma NoSellNoDust(q: seq<Lot>, f: Fill)
    requires !IsSell(f)
    ensures Effect(q, f).dropped.quantity == 0.0
  {
    EffectCases(q, f);
  }

  predicate Clean(before: seq<Fill>, f: Fill) {
    IsSell(f) ==> EndsClean(before, f)
  }

  // One more fill drops no dust exactly when it stops clean, and dust never goes away.
  lemma NoDustNext(rows: seq<Fill>, f: Fill)
    ensures NoDust(rows + [f]) <==> NoDust(rows) && Clean(rows, f)
  {
    hide Effect;
    hide EndsClean;
    RunLast(rows, f);
    Conservation(rows, CostBasis);
    QueueIsLive(rows, f.market);
    FillConserves(QueueOf(Run(rows).queues, f.market), f, CostBasis);
    if IsSell(f) {
      EndsCleanMeans(rows, f);
    } else {
      NoSellNoDust(QueueOf(Run(rows).queues, f.market), f);
    }
  }

  predicate AllClean(rows: seq<Fill>) {
    forall j | 0 <= j < |rows| :: Clean(rows[..j], rows[j])
  }

  lemma AllCleanNext(rows: seq<Fill>, f: Fill)
    ensures AllClean(rows + [f]) <==> AllClean(rows) && Clean(rows, f)
  {
    hide Clean;
    var all := rows + [f];
    assert all[..|rows|] == rows && all[|rows|] == f;
    assert forall j | 0 <= j < |rows| :: all[..j] == rows[..j] && all[j] == rows[j];
  }

  lemma NothingIsClean()
    ensures NoDust([]) && AllClean([])
  {
  }

  // A ledger drops no dust exactly when every SELL of it stops clean.
  lemma {:induction false} NoDustExactlyWhenClean(rows: seq<Fill>)
    ensures NoDust(rows) <==> AllClean(rows)
  {
    hide NoDust;
    hide AllClean;
    hide Clean;
    if rows == [] {
      NothingIsClean();
    } else {
      var before, f := rows[..|rows| - 1], rows[|rows| - 1];
      NoDustExactlyWhenClean(before);
      NoDustNext(before, f);
      AllCleanNext(before, f);
      assert before + [f] == rows;
    }
  }

  // ----- splitting one fill

  // g is the given share of f; its id and time are its own.
  predicate IsPart(g: Fill, f: Fill, share: real) {
    && g.market == f.market && g.side == f.side && g.feeIsKrw == f.feeIsKrw
    && g.quantity == Scaled(share, f.quantity) && g.value == Scaled(share, f.value) && g.fee == Scaled(share, f.fee)
  }

  predicate Splits(f: Fill, f1: Fill, f2: Fill, share: real) {
    0.0 < share < 1.0 && IsPart(f1, f, share) && IsPart(f2, f, 1.0 - share)
  }

  lemma SharesAddUp(x: real, share: real)
    requires 0.0 < share < 1.0
    ensures Scaled(share, x) + Scaled(1.0 - share, x) == x
    ensures x > 0.0 <==> Scaled(share, x) > 0.0
    ensures x > 0.0 <==> Scaled(1.0 - share, x) > 0.0
  {
    SignOfScaled(share, x);
    SignOfScaled(1.0 - share, x);
  }

  lemma SignOfScaled(share: real, x: real)
    requires share > 0.0
    ensures x > 0.0 <==> Scaled(share, x) > 0.0
  {
    if x > 0.0 {
      assert share * x > 0.0;
    } else {
      assert share * x <= 0.0;
    }
  }

  lemma PartsAreSigned(f: Fill, f1: Fill, f2: Fill, share: real)
    requires Splits(f, f1, f2, share)
    ensures IsBuy(f1) == IsBuy(f2) == IsBuy(f) && IsSell(f1) == IsSell(f2) == IsSell(f)
    ensures f1.quantity + f2.quantity == f.quantity && f1.value + f2.value == f.value && f1.fee + f2.fee == f.fee
  {
    hide Scaled;
    SharesAddUp(f.quantity, share);
    SharesAddUp(f.value, share);
    SharesAddUp(f.fee, share);
  }

  lemma LotOfPart(g: Fill, f: Fill, share: real)
    requires IsPart(g, f, share)
    ensures LotOf(g) == Part(LotOf(f), share)
  {
    assert share * 0.0 == 0.0;
  }

  // A clean sell whose first part stops clean goes on to stop clean.
  lemma SecondPartStopsClean(q: seq<Lot>, r1: real, r2: real)
    requires Live(q) && r1 > 0.0 && r2 > 0.0
    requires StopsClean(q, r1 + r2) && StopsClean(q, r1)
    ensures StopsClean(Consume(q, r1).queue, r2)
  {
    hide Consume;
    hide Drop;
    hide Snap;
    hide Total;
    TotalNonNegative(q);
    ConsumeQuantities(q, r1);
    var m1 := Min(r1, Total(q));
    DropTotals(q, m1);
    var rest := Drop(q, m1);
    TotalNonNegative(rest);
    var m2 := Min(r2, Total(rest));
    if m2 > 0.0 {
      assert m1 + m2 == Min(r1 + r2, Total(q));
      SnapAfterDrop(q, m1, m2);
    } else {
      SellOfNothing(rest, 0.0);
    }
  }

  lemma StopsCleanMeans(q: seq<Lot>, r: real)
    requires Live(q) && r > 0.0
    ensures StopsClean(q, r) <==> Consume(q, r).dropped.quantity == 0.0
    ensures Consume(q, r).dropped.quantity >= 0.0 && Live(Consume(q, r).queue)
  {
    hide Consume;
    hide Drop;
    hide Snap;
    ConsumeQuantities(q, r);
    DropTotals(q, Snap(q, Min(r, Total(q))));
  }

  lemma SplitSellMoney(q: seq<Lot>, f: Fill, f1: Fill, f2: Fill, share: real)
    requires Live(q) && IsSell(f) && Splits(f, f1, f2, share)
    requires Effect(q, f).dropped.quantity == 0.0 && Effect(q, f1).dropped.quantity == 0.0
    requires Effect(StepQueue(q, f1), f2).dropped.quantity == 0.0
    ensures SameMoney(Effect(q, f), Plus(Effect(q, f1), Effect(StepQueue(q, f1), f2)))
    ensures StepQueue(q, f) == StepQueue(StepQueue(q, f1), f2) && Live(StepQueue(q, f))
  {
    hide Scaled;
    hide Consume;
    hide Cumulative;
    hide Drop;
    hide Total;
    PartsAreSigned(f, f1, f2, share);
    CleanSellTwice(q, f1.quantity, f2.quantity, CostBasis);
    CleanSellTwice(q, f1.quantity, f2.quantity, FeeBasis);
  }

  // A SELL that stops clean accounts like its two parts exactly when the first part
  // stops clean as well; nothing is asked of the second.
  lemma SplitSellExactlyWhenClean(q: seq<Lot>, f: Fill, f1: Fill, f2: Fill, share: real)
    requires Live(q) && IsSell(f) && Splits(f, f1, f2, share) && StopsClean(q, f.quantity)
    ensures SameMoney(Effect(q, f), Plus(Effect(q, f1), Effect(StepQueue(q, f1), f2))) <==> StopsClean(q, f1.quantity)
    ensures StopsClean(q, f1.quantity) ==>
              StepQueue(q, f) == StepQueue(StepQueue(q, f1), f2) && Live(StepQueue(q, f))
  {
    PartsAreSigned(f, f1, f2, share);
    hide Scaled;
    hide Splits;
    hide Consume;
    hide Effect;
    hide StepQueue;
    hide StopsClean;
    SellEffect(q, f);
    SellEffect(q, f1);
    SellEffect(Consume(q, f1.quantity).queue, f2);
    StopsCleanMeans(q, f.quantity);
    StopsCleanMeans(q, f1.quantity);
    StopsCleanMeans(Consume(q, f1.quantity).queue, f2.quantity);
    if StopsClean(q, f1.quantity) {
      SecondPartStopsClean(q, f1.quantity, f2.quantity);
      SplitSellMoney(q, f, f1, f2, share);
    }
  }

  // Two clean sells in a row are one clean sell of their sum.
  lemma CleanSellTwice(q: seq<Lot>, r1: real, r2: real, k: Basis)
    requires Live(q) && r1 > 0.0 && r2 > 0.0
    requires Consume(q, r1 + r2).dropped.quantity == 0.0 && Consume(q, r1).dropped.quantity == 0.0
    requires Consume(Consume(q, r1).queue, r2).dropped.quantity == 0.0
    ensures var o, o1 := Consume(q, r1 + r2), Consume(q, r1);
            var o2 := Consume(o1.queue, r2);
            && o.queue == o2.queue && Live(o.queue)
            && o.remaining == o1.remaining + o2.remaining
            && Charged(o, k) == Charged(o1, k) + Charged(o2, k)
            && Weight(o.dropped, k) == Weight(o1.dropped, k) == Weight(o2.dropped, k) == 0.0
  {
    hide Total;
    hide Consume;
    hide Cumulative;
    hide Drop;
    CleanSell(q, r1 + r2, k);
    CleanSell(q, r1, k);
    var o1 := Consume(q, r1);
    CleanSell(o1.queue, r2, k);
    var m1 := Min(r1, Total(q));
    var m2 := Min(r2, Total(o1.queue));
    assert m1 + m2 == Min(r1 + r2, Total(q));
    DropShifts(q, m1, m2, k);
    DropTwice(q, m1, m2);
  }

  lemma PartsMakeTheLot(f: Fill, f1: Fill, f2: Fill, share: real)
    requires Splits(f, f1, f2, share)
    ensures AddLot(LotOf(f1), LotOf(f2)) == LotOf(f)
  {
    hide Scaled;
    PartsAreSigned(f, f1, f2, share);
  }

  lemma SplitBuyMoney(q: seq<Lot>, q': seq<Lot>, f: Fill, f1: Fill, f2: Fill, share: real)
    requires !IsSell(f) && Splits(f, f1, f2, share)
    ensures SameMoney(Effect(q, f), Plus(Effect(q, f1), Effect(q', f2)))
  {
    PartsAreSigned(f, f1, f2, share);
    PartsMakeTheLot(f, f1, f2, share);
    hide Scaled;
    hide Effect;
    hide LotOf;
    hide StepQueue;
    EffectCases(q, f);
    EffectCases(q, f1);
    EffectCases(q', f2);
  }

  lemma SplitBuyShape(q: seq<Lot>, f: Fill, f1: Fill, f2: Fill, share: real)
    requires Live(q) && !IsSell(f) && Splits(f, f1, f2, share)
    ensures SameShape(StepQueue(q, f), StepQueue(StepQueue(q, f1), f2))
  {
    hide Scaled;
    hide SameShape;
    hide Live;
    PartsAreSigned(f, f1, f2, share);
    LotOfPart(f1, f, share);
    LotOfPart(f2, f, 1.0 - share);
    if IsBuy(f) {
      SplitLotKeepsShape(q, LotOf(f), share);
    } else {
      SameShapeAsItself(q);
    }
  }

  lemma SameShapeAsItself(q: seq<Lot>)
    requires Live(q)
    ensures SameShape(q, q)
  {
  }

  lemma SplitStep(b: Book, f: Fill, f1: Fill, f2: Fill, share: real)
    requires Splits(f, f1, f2, share)
    requires forall m :: Live(QueueOf(b.queues, m))
    requires IsSell(f) ==> StopsClean(QueueOf(b.queues, f.market), f.quantity)
                           && StopsClean(QueueOf(b.queues, f.market), f1.quantity)
    ensures SameBooks(Step(b, f), Step(Step(b, f1), f2))
  {
    hide Scaled;
    hide Effect;
    hide StepQueue;
    hide SameShape;
    hide Live;
    hide StopsClean;
    var q := QueueOf(b.queues, f.market);
    if IsSell(f) {
      SplitSellExactlyWhenClean(q, f, f1, f2, share);
      SameShapeAsItself(StepQueue(q, f));
    } else {
      SplitBuyMoney(q, StepQueue(q, f1), f, f1, f2, share);
      SplitBuyShape(q, f, f1, f2, share);
    }
    var whole, parts := Step(b, f), Step(Step(b, f1), f2);
    forall m ensures SameShape(QueueOf(whole.queues, m), QueueOf(parts.queues, m)) {
      assert Live(QueueOf(b.queues, m));
      SameShapeAsItself(QueueOf(b.queues, m));
    }
  }

  // ----- a boundary inside a lot

  lemma {:induction false} ConcatTotals(q: seq<Lot>, tail: seq<Lot>)
    ensures Total(q + tail) == Total(q) + Total(tail)
  {
    if q == [] {
      assert q + tail == tail;
    } else {
      assert (q + tail)[1..] == q[1..] + tail;
      ConcatTotals(q[1..], tail);
    }
  }

  // Under the dust threshold in front of a boundary that lies d beyond x.
  predicate JustBefore(x: real, e: real, d: real) {
    x < e < x + d && x + d - e <= DUST
  }

  // Cutting a lot in two adds one place where a SELL must not stop: just in front of the cut.
  lemma {:induction false} SnapAtCut(front: seq<Lot>, l: Lot, l1: Lot, l2: Lot, tail: seq<Lot>, x: real)
    requires Live(front) && l1.quantity > 0.0 && l2.quantity > 0.0 && l1.quantity + l2.quantity == l.quantity
    requires Snap(front + [l] + tail, x) == x
    ensures Snap(front + [l1] + [l2] + tail, x) == x <==> !JustBefore(Total(front), x, l1.quantity)
    decreases |front|
  {
    var whole, parts := front + [l] + tail, front + [l1] + [l2] + tail;
    if front == [] {
      assert whole == [l] + tail && parts == [l1] + ([l2] + tail);
      assert whole[1..] == tail && parts[1..] == [l2] + tail && ([l2] + tail)[1..] == tail;
      assert Snap(parts, x) == if x <= 0.0 then x
                               else if x >= l1.quantity then l1.quantity + Snap([l2] + tail, x - l1.quantity)
                               else if l1.quantity - x <= DUST then l1.quantity else x;
      assert x - l1.quantity - l2.quantity == x - l.quantity;
    } else {
      var rest := front[1..];
      assert whole[1..] == rest + [l] + tail && parts[1..] == rest + [l1] + [l2] + tail;
      TotalNonNegative(rest);
      if x > 0.0 && x >= front[0].quantity {
        SnapAtCut(rest, l, l1, l2, tail, x - front[0].quantity);
      }
    }
  }

  lemma {:induction false} BuysConcat(a: seq<Fill>, b: seq<Fill>, market: string)
    ensures Buys(a + b, market) == Buys(a, market) + Buys(b, market)
  {
    if b == [] {
      assert a + b == a;
    } else {
      var c, f := b[..|b| - 1], b[|b| - 1];
      assert (a + b)[..|a + b| - 1] == a + c;
      BuysConcat(a, c, market);
    }
  }

  function OwnLots(f: Fill, market: string): seq<Lot> {
    if f.market == market && IsBuy(f) then [LotOf(f)] else []
  }

  lemma BuysOfOne(f: Fill, market: string)
    ensures Buys([f], market) == OwnLots(f, market)
  {
    assert [f][..0] == [];
    assert Buys([], market) == [];
  }

  lemma BuysAround(a: seq<Fill>, f: Fill, b: seq<Fill>, market: string)
    ensures Buys(a + [f] + b, market) == Buys(a, market) + OwnLots(f, market) + Buys(b, market)
  {
    BuysConcat(a + [f], b, market);
    BuysConcat(a, [f], market);
    BuysOfOne(f, market);
  }

  lemma BuysAroundParts(a: seq<Fill>, f1: Fill, f2: Fill, b: seq<Fill>, market: string)
    ensures Buys(a + [f1] + [f2] + b, market)
         == Buys(a, market) + OwnLots(f1, market) + OwnLots(f2, market) + Buys(b, market)
  {
    BuysConcat(a + [f1] + [f2], b, market);
    BuysConcat(a + [f1], [f2], market);
    BuysConcat(a, [f1], market);
    BuysOfOne(f1, market);
    BuysOfOne(f2, market);
  }

  lemma OwnTotals(f: Fill, f1: Fill, f2: Fill, share: real, market: string)
    requires Splits(f, f1, f2, share)
    ensures Total(OwnLots(f1, market)) + Total(OwnLots(f2, market)) == Total(OwnLots(f, market))
  {
    hide Scaled;
    PartsAreSigned(f, f1, f2, share);
    assert Total([]) == 0.0;
    OneLotTotal(LotOf(f));
    OneLotTotal(LotOf(f1));
    OneLotTotal(LotOf(f2));
  }

  lemma OneLotTotal(l: Lot)
    ensures Total([l]) == l.quantity
  {
    assert [l][1..] == [] && Total([]) == 0.0;
  }

  lemma SameBought(a: seq<Fill>, f: Fill, f1: Fill, f2: Fill, share: real, c: seq<Fill>, market: string)
    requires Splits(f, f1, f2, share)
    ensures Total(Buys(a + [f1] + [f2] + c, market)) == Total(Buys(a + [f] + c, market))
  {
    hide Splits;
    hide OwnLots;
    BuysAround(a, f, c, market);
    BuysAroundParts(a, f1, f2, c, market);
    OwnTotals(f, f1, f2, share, market);
    var front, tail := Buys(a, market), Buys(c, market);
    hide Buys;
    hide Total;
    ConcatTotals(front + OwnLots(f, market), tail);
    ConcatTotals(front, OwnLots(f, market));
    ConcatTotals(front + OwnLots(f1, market) + OwnLots(f2, market), tail);
    ConcatTotals(front + OwnLots(f1, market), OwnLots(f2, market));
    ConcatTotals(front, OwnLots(f1, market));
  }

  // What has not been reached yet is what is open.
  lemma PointByOpen(rows: seq<Fill>, market: string)
    ensures Pointer(rows, market) == Total(Buys(rows, market)) - Total(QueueOf(Run(rows).queues, market))
  {
    hide Run;
    hide Pointer;
    hide Drop;
    QueueIsResidual(rows, market);
    DropTotals(Buys(rows, market), Pointer(rows, market));
  }

  // With the same open quantities, both replays have reached the same point of each market.
  lemma SamePoint(a: seq<Fill>, f: Fill, f1: Fill, f2: Fill, share: real, c: seq<Fill>, market: string)
    requires Splits(f, f1, f2, share)
    requires SameBooks(Run(a + [f] + c), Run(a + [f1] + [f2] + c))
    ensures var whole, parts := a + [f] + c, a + [f1] + [f2] + c;
            Total(Buys(parts, market)) == Total(Buys(whole, market)) && Pointer(parts, market) == Pointer(whole, market)
  {
    hide Run;
    hide Pointer;
    hide Buys;
    hide Total;
    hide Splits;
    var whole, parts := a + [f] + c, a + [f1] + [f2] + c;
    SameBought(a, f, f1, f2, share, c, market);
    PointByOpen(whole, market);
    PointByOpen(parts, market);
    assert SameShape(QueueOf(Run(whole).queues, market), QueueOf(Run(parts).queues, market));
  }

  // The first part of a SELL stops clean; after a split BUY no later SELL of the market
  // stops just in front of the cut between the two lots.
  predicate ClearOfTheCut(a: seq<Fill>, f: Fill, f1: Fill, b: seq<Fill>) {
    && Clean(a, f1)
    && (IsBuy(f) ==> forall j | 0 <= j < |b| :: ClearOf(a, f, f1, b[..j], b[j]))
  }

  predicate ClearOf(a: seq<Fill>, f: Fill, f1: Fill, c: seq<Fill>, g: Fill) {
    IsSell(g) && g.market == f.market
    ==> !JustBefore(Total(Buys(a, f.market)), SellEnd(a + [f] + c, g), f1.quantity)
  }

  lemma ClearNext(a: seq<Fill>, f: Fill, f1: Fill, c: seq<Fill>, g: Fill)
    ensures ClearOfTheCut(a, f, f1, c + [g])
            <==> ClearOfTheCut(a, f, f1, c) && (IsBuy(f) ==> ClearOf(a, f, f1, c, g))
  {
    hide Clean;
    hide ClearOf;
    var b := c + [g];
    assert b[..|c|] == c && b[|c|] == g;
    assert forall j | 0 <= j < |c| :: b[..j] == c[..j] && b[j] == c[j];
  }

  // The next fill stops clean among the parts exactly when it does so in the whole and
  // is clear of the cut.
  lemma NextIsClean(a: seq<Fill>, f: Fill, f1: Fill, f2: Fill, share: real, c: seq<Fill>, g: Fill)
    requires Splits(f, f1, f2, share)
    requires SameBooks(Run(a + [f] + c), Run(a + [f1] + [f2] + c))
    requires Clean(a + [f] + c, g)
    ensures Clean(a + [f1] + [f2] + c, g) <==> (IsBuy(f) ==> ClearOf(a, f, f1, c, g))
  {
    hide Run;
    hide Pointer;
    hide Snap;
    hide SameBooks;
    hide Scaled;
    if IsSell(g) {
      var m := g.market;
      SamePoint(a, f, f1, f2, share, c, m);
      BuysAround(a, f, c, m);
      BuysAroundParts(a, f1, f2, c, m);
      PartsAreSigned(f, f1, f2, share);
      BuysAreLive(a, m);
      var front, tail := Buys(a, m), Buys(c, m);
      hide Buys;
      hide Total;
      if f.market == m && IsBuy(f) {
        PartsMakeTheLot(f, f1, f2, share);
        SnapAtCut(front, LotOf(f), LotOf(f1), LotOf(f2), tail, SellEnd(a + [f] + c, g));
      } else {
        assert front + [] + [] + tail == front + [] + tail;
      }
    }
  }

  // The law: in a replay without dust, a fill and its two parts account the same from
  // there on exactly when the parts are clear of the cut.
  lemma {:induction false} SplittingIsInvisibleExactlyWhenClear(a: seq<Fill>, f: Fill, f1: Fill, f2: Fill, share: real, b: seq<Fill>)
    requires Splits(f, f1, f2, share) && NoDust(a + [f] + b)
    ensures SameBooks(Run(a + [f] + b), Run(a + [f1] + [f2] + b)) <==> ClearOfTheCut(a, f, f1, b)
    ensures NoDust(a + [f1] + [f2] + b) <==> ClearOfTheCut(a, f, f1, b)
    decreases |b|
  {
    hide Run;
    hide SameBooks;
    hide Splits;
    hide Clean;
    hide ClearOf;
    hide ClearOfTheCut;
    hide NoDust;
    if b == [] {
      assert a + [f] + b == a + [f] && a + [f1] + [f2] + b == a + [f1] + [f2];
      SplitAtTheEnd(a, f, f1, f2, share);
    } else {
      var c, g := b[..|b| - 1], b[|b| - 1];
      var whole, parts := a + [f] + c, a + [f1] + [f2] + c;
      assert b == c + [g];
      assert a + [f] + b == whole + [g] && a + [f1] + [f2] + b == parts + [g];
      NoDustNext(whole, g);
      NoDustNext(parts, g);
      SplittingIsInvisibleExactlyWhenClear(a, f, f1, f2, share, c);
      ClearNext(a, f, f1, c, g);
      if ClearOfTheCut(a, f, f1, c) {
        NextIsClean(a, f, f1, f2, share, c, g);
      }
      if NoDust(parts + [g]) {
        StepKeepsBooks(whole, parts, g);
      } else {
        DustIsVisible(whole + [g], parts + [g]);
      }
    }
  }

  lemma DustIsVisible(whole: seq<Fill>, parts: seq<Fill>)
    requires NoDust(whole) && !NoDust(parts)
    ensures !SameBooks(Run(whole), Run(parts))
  {
  }

  lemma StepKeepsBooks(whole: seq<Fill>, parts: seq<Fill>, g: Fill)
    requires SameBooks(Run(whole), Run(parts)) && NoDust(whole + [g]) && NoDust(parts + [g])
    ensures SameBooks(Run(whole + [g]), Run(parts + [g]))
  {
    NoDustBefore(whole, g);
    NoDustBefore(parts, g);
    RunLast(whole, g);
    RunLast(parts, g);
    StepKeepsSameBooks(Run(whole), Run(parts), g);
  }

  lemma LastClean(a: seq<Fill>, f: Fill, f1: Fill)
    ensures ClearOfTheCut(a, f, f1, []) <==> Clean(a, f1)
  {
    hide Clean;
  }

  // After a clean first part the second one is clean.
  lemma SecondPartIsClean(a: seq<Fill>, f: Fill, f1: Fill, f2: Fill, share: real)
    requires Splits(f, f1, f2, share) && Clean(a, f) && Clean(a, f1)
    ensures Clean(a + [f1], f2)
    ensures IsSell(f) ==> StopsClean(QueueOf(Run(a).queues, f.market), f.quantity)
                          && StopsClean(QueueOf(Run(a).queues, f.market), f1.quantity)
  {
    PartsAreSigned(f, f1, f2, share);
    hide Scaled;
    hide EndsClean;
    hide StopsClean;
    if IsSell(f) {
      EndsCleanMeans(a, f);
      EndsCleanMeans(a, f1);
      EndsCleanMeans(a + [f1], f2);
      var q := QueueOf(Run(a).queues, f.market);
      RunFigures(a, f1);
      SellEffect(q, f1);
      QueueIsLive(a, f.market);
      hide Run;
      hide Effect;
      hide StepQueue;
      hide Consume;
      SecondPartStopsClean(q, f1.quantity, f2.quantity);
    }
  }

  lemma SplitKeepsBooks(a: seq<Fill>, f: Fill, f1: Fill, f2: Fill, share: real)
    requires Splits(f, f1, f2, share) && Clean(a, f) && Clean(a, f1)
    ensures SameBooks(Run(a + [f]), Run(a + [f1] + [f2]))
  {
    hide Run;
    hide Clean;
    hide Splits;
    hide SameBooks;
    hide StopsClean;
    hide Step;
    SecondPartIsClean(a, f, f1, f2, share);
    forall m ensures Live(QueueOf(Run(a).queues, m)) {
      QueueIsLive(a, m);
    }
    RunLast(a, f);
    RunLast(a, f1);
    RunLast(a + [f1], f2);
    SplitStep(Run(a), f, f1, f2, share);
  }

  // The split fill itself, as the last one.
  lemma SplitAtTheEnd(a: seq<Fill>, f: Fill, f1: Fill, f2: Fill, share: real)
    requires Splits(f, f1, f2, share) && NoDust(a + [f])
    ensures SameBooks(Run(a + [f]), Run(a + [f1] + [f2])) <==> ClearOfTheCut(a, f, f1, [])
    ensures NoDust(a + [f1] + [f2]) <==> ClearOfTheCut(a, f, f1, [])
  {
    hide Run;
    hide SameBooks;
    hide NoDust;
    hide Clean;
    hide Splits;
    hide ClearOfTheCut;
    LastClean(a, f, f1);
    NoDustNext(a, f);
    NoDustNext(a, f1);
    NoDustNext(a + [f1], f2);
    if Clean(a, f1) {
      SecondPartIsClean(a, f, f1, f2, share);
      SplitKeepsBooks(a, f, f1, f2, share);
    } else {
      DustIsVisible(a + [f], a + [f1] + [f2]);
    }
  }

  // Read off as figures of the report, for rows in replay order. The parts have ids and
  // times of their own, with the whole fill in between.
  lemma SplittingKeepsTheReport(a: seq<Fill>, f: Fill, f1: Fill, f2: Fill, share: real, b: seq<Fill>,
                                prices: map<string, real>, feeRate: real, figure: Figure)
    requires Splits(f, f1, f2, share) && NoDust(a + [f] + b) && ClearOfTheCut(a, f, f1, b)
    requires Sorted(a + [f1] + [f2] + b, ReplayKey())
    requires !Before(ReplayKey()(f), ReplayKey()(f1)) && !Before(ReplayKey()(f2), ReplayKey()(f))
    ensures FigureOf(ReportOf(a + [f] + b, prices, feeRate), figure)
         == FigureOf(ReportOf(a + [f1] + [f2] + b, prices, feeRate), figure)
  {
    hide Run;
    hide StableSort;
    hide TradeFees;
    hide SameBooks;
    hide NoDust;
    hide ClearOfTheCut;
    var whole, parts := a + [f] + b, a + [f1] + [f2] + b;
    WholeIsSorted(a, f, f1, f2, b);
    SortedIsFixed(whole, ReplayKey());
    SortedIsFixed(parts, ReplayKey());
    SplittingIsInvisibleExactlyWhenClear(a, f, f1, f2, share, b);
    SameBooksSameFigures(Run(whole), Run(parts), prices, feeRate);
    RealizedFeeIsMatched(whole);
    RealizedFeeIsMatched(parts);
  }

  lemma WholeIsSorted(a: seq<Fill>, f: Fill, f1: Fill, f2: Fill, b: seq<Fill>)
    requires Sorted(a + [f1] + [f2] + b, ReplayKey())
    requires !Before(ReplayKey()(f), ReplayKey()(f1)) && !Before(ReplayKey()(f2), ReplayKey()(f))
    ensures Sorted(a + [f] + b, ReplayKey())
  {
    var whole, parts := a + [f] + b, a + [f1] + [f2] + b;
    var key, n := ReplayKey(), |a|;
    assert parts[n] == f1 && parts[n + 1] == f2;
    forall i, j | 0 <= i < j < |whole| ensures !Before(key(whole[j]), key(whole[i])) {
      var i' := if i < n then i else i + 1;
      var j' := if j <= n then j else j + 1;
      assert i != n ==> whole[i] == parts[i'];
      assert j != n ==> whole[j] == parts[j'];
      if i == n {
        assert !Before(key(parts[j']), key(parts[n + 1]));
      } else if j == n {
        assert !Before(key(parts[n]), key(parts[i]));
      } else {
        assert !Before(key(parts[j']), key(parts[i']));
      }
    }
  }

  lemma SameBooksSameFigures(a: Book, b: Book, prices: map<string, real>, feeRate: real)
    requires SameBooks(a, b)
    ensures a.tally.gross == b.tally.gross
    ensures a.tally.matched.fee == b.tally.matched.fee && a.tally.sellFee == b.tally.sellFee
    ensures SetSum(a.queues.Keys, OpenQuantity(a.queues)) == SetSum(b.queues.Keys, OpenQuantity(b.queues))
    ensures SetSum(a.queues.Keys, OpenWeight(a.queues, CostBasis)) == SetSum(b.queues.Keys, OpenWeight(b.queues, CostBasis))
    ensures SetSum(a.queues.Keys, Unrealized(a.queues, prices)) == SetSum(b.queues.Keys, Unrealized(b.queues, prices))
    ensures SetSum(a.queues.Keys, ExitFee(a.queues, prices, feeRate)) == SetSum(b.queues.Keys, ExitFee(b.queues, prices, feeRate))
  {
    hide Total;
    hide TotalWeight;
    hide Cumulative;
    forall m
      ensures OpenQuantity(a.queues)(m) == OpenQuantity(b.queues)(m)
      ensures OpenWeight(a.queues, CostBasis)(m) == OpenWeight(b.queues, CostBasis)(m)
      ensures Unrealized(a.queues, prices)(m) == Unrealized(b.queues, prices)(m)
      ensures ExitFee(a.queues, prices, feeRate)(m) == ExitFee(b.queues, prices, feeRate)(m)
    {
      SameShapeWeights(QueueOf(a.queues, m), QueueOf(b.queues, m), CostBasis);
    }
    SetSumAgree(a.queues.Keys, OpenQuantity(a.queues), OpenQuantity(b.queues));
    SetSumAgree(a.queues.Keys, OpenWeight(a.queues, CostBasis), OpenWeight(b.queues, CostBasis));
    SetSumAgree(a.queues.Keys, Unrealized(a.queues, prices), Unrealized(b.queues, prices));
    SetSumAgree(a.queues.Keys, ExitFee(a.queues, prices, feeRate), ExitFee(b.queues, prices, feeRate));
  }

  // It can fail: a first part of a SELL that stops inside the dust threshold drops the
  // rest of the lot, and the second part then finds no lot to charge.
  lemma DustBreaksSplitting(buy: Fill, sell: Fill, f1: Fill, f2: Fill, share: real)
    requires IsBuy(buy) && IsSell(sell) && buy.market == sell.market && buy.quantity == sell.quantity
    requires Splits(sell, f1, f2, share) && f2.quantity <= DUST
    ensures var whole, parts := [buy] + [sell], [buy] + [f1] + [f2];
            && NoDust(whole) && !NoDust(parts)
            && Run(parts).tally.gross == Run(whole).tally.gross + (buy.value - buy.value * share)
  {
    hide Run;
    hide Scaled;
    PartsAreSigned(sell, f1, f2, share);
    assert f1.quantity == buy.quantity * share by { ScaledIsProduct(share, sell.quantity); }
    assert sell.quantity == buy.quantity * 1.0;
    SellOfOneLot(buy, sell, 1.0);
    SellOfOneLot(buy, f1, share);
    RunFigures([buy] + [f1], f2);
    SellEffect([], f2);
    SellOfNothing([], f2.quantity);
  }

  lemma ScaledIsProduct(share: real, x: real)
    ensures Scaled(share, x) == x * share
  {
  }

  lemma SellOfOneLot(buy: Fill, sell: Fill, share: real)
    requires IsBuy(buy) && IsSell(sell) && buy.market == sell.market
    requires 0.0 < share <= 1.0 && sell.quantity == buy.quantity * share && buy.quantity - sell.quantity <= 0.000000000001
    ensures var b := Run([buy] + [sell]);
            && b.tally.gross == sell.value - buy.value * share
            && b.tally.dropped.quantity == buy.quantity - sell.quantity
            && QueueOf(b.queues, buy.market) == []
  {
    hide Effect;
    hide StepQueue;
    hide Consume;
    hide Run;
    var lot := LotOf(buy);
    OneLotSell(lot, share, sell.quantity);
    SellEffect([lot], sell);
    RunEmpty();
    assert [] + [buy] == [buy] && [] + [lot] == [lot];
    assert StepQueue([], buy) == [lot] && Effect([], buy).gross == 0.0 && Effect([], buy).dropped.quantity == 0.0 by {
      EffectCases([], buy);
    }
    RunFigures([], buy);
    RunFigures([buy], sell);
  }

  lemma RunFigures(rows: seq<Fill>, f: Fill)
    ensures var b, b' := Run(rows), Run(rows + [f]);
            var q := QueueOf(b.queues, f.market);
            && QueueOf(b'.queues, f.market) == StepQueue(q, f)
            && b'.tally.gross == b.tally.gross + Effect(q, f).gross
            && b'.tally.dropped.quantity == b.tally.dropped.quantity + Effect(q, f).dropped.quantity
  {
    hide Effect;
    hide StepQueue;
    RunLast(rows, f);
  }

  lemma PartIsLess(x: real, share: real)
    requires x > 0.0 && share <= 1.0
    ensures x * share <= x
  {
    assert x * (1.0 - share) >= 0.0;
  }

  // A sell that takes a single lot to within the dust threshold.
  lemma OneLotSell(l: Lot, share: real, r: real)
    requires l.quantity > 0.0 && 0.0 < share <= 1.0 && r == l.quantity * share && 0.0 < r && l.quantity - r <= DUST
    ensures Consume([l], r).queue == [] && Consume([l], r).basis == l.cost * share
    ensures Consume([l], r).dropped.quantity == l.quantity - r
  {
    assert r <= l.quantity by { PartIsLess(l.quantity, share); }
    assert Ratio(l, r) == share by { QuotientOfProduct(share, l.quantity); }
    hide Ratio;
    assert [l][1..] == [];
    SellOfNothing([], 0.0);
  }

  lemma SellEffect(q: seq<Lot>, f: Fill)
    requires IsSell(f)
    ensures Effect(q, f).gross == f.value - Consume(q, f.quantity).basis
    ensures Effect(q, f).dropped == Consume(q, f.quantity).dropped
    ensures StepQueue(q, f) == Consume(q, f.quantity).queue
  {
  }
}
