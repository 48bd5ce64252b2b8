/** One market's queue of open BUY lots: the FIFO consumption of a SELL and its
    meaning as an interval of the cumulative bought quantity. */
module FifoLots {
  import opened Basics

  // A residual of at most this quantity is dropped from the queue.
  const DUST: real := 0.000000000001

  datatype Lot = Lot(quantity: real, cost: real, fee: real)

  datatype Basis = CostBasis | FeeBasis

  datatype Match = Match(quantity: real, costBasis: real, allocatedBuyFee: real,
                         lotQuantityBefore: real, lotCostBefore: real)

  const NOTHING := Lot(0.0, 0.0, 0.0)

  function AddLot(a: Lot, b: Lot): Lot {
    Lot(a.quantity + b.quantity, a.cost + b.cost, a.fee + b.fee)
  }

  function Weight(l: Lot, k: Basis): real {
    match k case CostBasis => l.cost case FeeBasis => l.fee
  }

  predicate Live(q: seq<Lot>) {
    forall i | 0 <= i < |q| :: q[i].quantity > 0.0
  }

  function Total(q: seq<Lot>): real {
    if q == [] then 0.0 else q[0].quantity + Total(q[1..])
  }

  function TotalWeight(q: seq<Lot>, k: Basis): real {
    if q == [] then 0.0 else Weight(q[0], k) + TotalWeight(q[1..], k)
  }

  function MatchedQuantity(ms: seq<Match>): real {
    if ms == [] then 0.0 else ms[0].quantity + MatchedQuantity(ms[1..])
  }

  // ----- the interval reading of a queue

  function UnitWeight(l: Lot, k: Basis): real
    requires l.quantity > 0.0
  {
    Weight(l, k) / l.quantity
  }

  // A length of the lot's interval at the lot's own unit cost (or unit fee).
  function Charge(l: Lot, length: real, k: Basis): real
    requires l.quantity > 0.0
  {
    length * UnitWeight(l, k)
  }

  function Clip(x: real, limit: real): real { Max(0.0, Min(x, limit)) }

  // The cost (or fee) of the first x units of the queue.
  function Cumulative(q: seq<Lot>, x: real, k: Basis): real
    requires Live(q)
  {
    if q == [] then 0.0
    else Charge(q[0], Clip(x, q[0].quantity), k) + Cumulative(q[1..], x - q[0].quantity, k)
  }

  function Overlap(lo: real, hi: real, from: real, to: real): real {
    Max(0.0, Min(hi, to) - Max(lo, from))
  }

  // Each lot charged for the length of its own interval that lies in [from, to).
  function OverlapWeight(q: seq<Lot>, lo: real, from: real, to: real, k: Basis): real
    requires Live(q)
  {
    if q == [] then 0.0
    else
      var hi := lo + q[0].quantity;
      Charge(q[0], Overlap(lo, hi, from, to), k) + OverlapWeight(q[1..], hi, from, to, k)
  }

  // The end of the last lot reached, when less than DUST of that lot remains past x.
  function Snap(q: seq<Lot>, x: real): real {
    if q == [] || x <= 0.0 then x
    else if x >= q[0].quantity then q[0].quantity + Snap(q[1..], x - q[0].quantity)
    else if q[0].quantity - x <= DUST then q[0].quantity
    else x
  }

  // What is left of a queue after its first p units.
  function Drop(q: seq<Lot>, p: real): seq<Lot> {
    if q == [] || p <= 0.0 then q
    else if p >= q[0].quantity then Drop(q[1..], p - q[0].quantity)
    else [Shrink(q[0], p)] + q[1..]
  }

  // ----- the consumption step as the ledger performs it

  function Ratio(l: Lot, used: real): real {
    if l.quantity > 0.0 then used / l.quantity else 0.0
  }

  function Shrink(l: Lot, used: real): Lot {
    var ratio := Ratio(l, used);
    Lot(l.quantity - used, l.cost - l.cost * ratio, l.fee - l.fee * ratio)
  }

  function MatchOf(l: Lot, used: real): Match {
    var ratio := Ratio(l, used);
    Match(used, l.cost * ratio, l.fee * ratio, l.quantity, l.cost)
  }

  datatype Outcome = Outcome(queue: seq<Lot>, remaining: real, basis: real, buyFee: real,
                             matched: seq<Match>, dropped: Lot)

  function Consume(q: seq<Lot>, r: real): Outcome
    decreases |q|
  {
    if q == [] || r <= 0.0 then Outcome(q, r, 0.0, 0.0, [], NOTHING)
    else
      var used := Min(r, q[0].quantity);
      var m := MatchOf(q[0], used);
      var left := Shrink(q[0], used);
      if left.quantity <= DUST then
        var rest := Consume(q[1..], r - used);
        Outcome(rest.queue, rest.remaining, m.costBasis + rest.basis, m.allocatedBuyFee + rest.buyFee,
                [m] + rest.matched, AddLot(left, rest.dropped))
      else
        Outcome([left] + q[1..], r - used, m.costBasis, m.allocatedBuyFee, [m], NOTHING)
  }

  // The queue after one round of the SELL loop.
  function NextQueue(q: seq<Lot>, used: real): seq<Lot>
    requires q != []
  {
    var left := Shrink(q[0], used);
    if left.quantity <= DUST then q[1..] else [left] + q[1..]
  }

  lemma ConsumeRound(q: seq<Lot>, r: real)
    requires q != [] && r > 0.0
    ensures var used := Min(r, q[0].quantity);
            var o, m, rest := Consume(q, r), MatchOf(q[0], used), Consume(NextQueue(q, used), r - used);
            && o.queue == rest.queue && o.remaining == rest.remaining
            && o.basis == m.costBasis + rest.basis && o.buyFee == m.allocatedBuyFee + rest.buyFee
            && o.matched == [m] + rest.matched
    ensures |NextQueue(q, Min(r, q[0].quantity))| < |q| || r - Min(r, q[0].quantity) <= 0.0
  {
  }

  // The SELL loop: each round either exhausts the sell or pops the front lot.
  method ConsumeLots(open: seq<Lot>, quantity: real)
    returns (queue: seq<Lot>, remaining: real, basis: real, buyFee: real, matched: seq<Match>)
    ensures var o := Consume(open, quantity);
            && queue == o.queue && remaining == o.remaining && basis == o.basis
            && buyFee == o.buyFee && matched == o.matched
  {
    hide Consume;
    hide Shrink;
    hide MatchOf;
    queue, remaining, basis, buyFee, matched := open, quantity, 0.0, 0.0, [];
    ghost var goal := Consume(open, quantity);
    ghost var todo := goal;
    while remaining > 0.0 && queue != []
      invariant todo == Consume(queue, remaining)
      invariant goal.queue == todo.queue && goal.remaining == todo.remaining
      invariant goal.basis == basis + todo.basis && goal.buyFee == buyFee + todo.buyFee
      invariant goal.matched == matched + todo.matched
      decreases |queue|, if remaining > 0.0 then 1 else 0
    {
      ConsumeRound(queue, remaining);
      var lot := queue[0];
      var used := Min(remaining, lot.quantity);
      var m := MatchOf(lot, used);
      basis := basis + m.costBasis;
      buyFee := buyFee + m.allocatedBuyFee;
      matched := matched + [m];
      var left := Shrink(lot, used);
      if left.quantity <= DUST {
        queue := queue[1..];
      } else {
        queue := [left] + queue[1..];
      }
      remaining := remaining - used;
      todo := Consume(queue, remaining);
    }
    SellOfNothing(queue, remaining);
  }

  // ----- the two readings agree

  lemma ShrinkKeepsUnit(l: Lot, used: real, k: Basis)
    requires 0.0 <= used < l.quantity
    ensures Shrink(l, used).quantity == l.quantity - used > 0.0
    ensures Weight(Shrink(l, used), k) == UnitWeight(l, k) * (l.quantity - used)
    ensures UnitWeight(Shrink(l, used), k) == UnitWeight(l, k)
  {
    var u := UnitWeight(l, k);
    assert Weight(l, k) == u * l.quantity;
    MatchIsProportional(l, used, k);
    assert Weight(Shrink(l, used), k) == u * l.quantity - u * used == u * (l.quantity - used);
    QuotientOfProduct(u, l.quantity - used);
  }

  lemma QuotientOfProduct(u: real, d: real)
    requires d != 0.0
    ensures (u * d) / d == u
  {
  }

  lemma MatchIsProportional(l: Lot, used: real, k: Basis)
    requires l.quantity > 0.0
    ensures Weight(l, k) * Ratio(l, used) == UnitWeight(l, k) * used
  {
    var w, n := Weight(l, k), l.quantity;
    assert w * (used / n) == (w * used) / n == (w / n) * used;
  }

  lemma RatioOfAll(l: Lot)
    requires l.quantity > 0.0
    ensures Ratio(l, l.quantity) == 1.0
    ensures Shrink(l, l.quantity) == NOTHING
  {
    var n := l.quantity;
    assert n / n == 1.0 by { QuotientOfProduct(1.0, n); }
  }

  function MatchWeight(m: Match, k: Basis): real {
    match k case CostBasis => m.costBasis case FeeBasis => m.allocatedBuyFee
  }

  // The matched part and the rest of a lot, both at the lot's unit cost.
  lemma LotSplitsByCharge(l: Lot, used: real, k: Basis)
    requires 0.0 <= used <= l.quantity && l.quantity > 0.0
    ensures MatchWeight(MatchOf(l, used), k) == Charge(l, used, k)
    ensures Weight(Shrink(l, used), k) == Weight(l, k) - Charge(l, used, k)
    ensures Charge(l, l.quantity, k) == Weight(l, k)
  {
    MatchIsProportional(l, used, k);
    MatchIsProportional(l, l.quantity, k);
    RatioOfAll(l);
  }

  lemma ShrinkKeepsCharge(l: Lot, used: real, length: real, k: Basis)
    requires 0.0 <= used < l.quantity
    ensures Shrink(l, used).quantity == l.quantity - used > 0.0
    ensures Charge(Shrink(l, used), length, k) == Charge(l, length, k)
  {
    ShrinkKeepsUnit(l, used, k);
  }

  lemma ShrinkTwice(l: Lot, a: real, b: real)
    requires 0.0 <= a && 0.0 <= b && a + b < l.quantity
    ensures Shrink(Shrink(l, a), b) == Shrink(l, a + b)
  {
    forall k: Basis ensures Weight(Shrink(Shrink(l, a), b), k) == Weight(Shrink(l, a + b), k) {
      ShrinkKeepsUnit(l, a, k);
      ShrinkKeepsUnit(l, a + b, k);
      ShrinkKeepsUnit(Shrink(l, a), b, k);
    }
    assert Weight(Shrink(Shrink(l, a), b), CostBasis) == Weight(Shrink(l, a + b), CostBasis);
    assert Weight(Shrink(Shrink(l, a), b), FeeBasis) == Weight(Shrink(l, a + b), FeeBasis);
  }

  lemma {:induction false} TotalNonNegative(q: seq<Lot>)
    requires Live(q)
    ensures Total(q) >= 0.0
    ensures q != [] ==> Total(q) > 0.0
  {
    if q != [] {
      TotalNonNegative(q[1..]);
    }
  }

  lemma {:induction false} CumulativeEnds(q: seq<Lot>, x: real, k: Basis)
    requires Live(q)
    ensures x <= 0.0 ==> Cumulative(q, x, k) == 0.0
    ensures x >= Total(q) ==> Cumulative(q, x, k) == TotalWeight(q, k)
  {
    if q != [] {
      TotalNonNegative(q[1..]);
      CumulativeEnds(q[1..], x - q[0].quantity, k);
    }
  }

  lemma ChargeDifference(l: Lot, a: real, b: real, k: Basis)
    requires l.quantity > 0.0
    ensures Charge(l, a - b, k) == Charge(l, a, k) - Charge(l, b, k)
  {
  }

  lemma OverlapIsClipDifference(lo: real, n: real, from: real, to: real)
    requires n > 0.0 && from <= to
    ensures Overlap(lo, lo + n, from, to) == Clip(to - lo, n) - Clip(from - lo, n)
  {
  }

  lemma {:induction false} OverlapIsDifference(q: seq<Lot>, lo: real, from: real, to: real, k: Basis)
    requires Live(q) && from <= to
    ensures OverlapWeight(q, lo, from, to, k) == Cumulative(q, to - lo, k) - Cumulative(q, from - lo, k)
  {
    if q != [] {
      var l, n := q[0], q[0].quantity;
      OverlapIsDifference(q[1..], lo + n, from, to, k);
      assert to - lo - n == to - (lo + n) && from - lo - n == from - (lo + n);
      OverlapIsClipDifference(lo, n, from, to);
      ChargeDifference(l, Clip(to - lo, n), Clip(from - lo, n), k);
    }
  }

  lemma {:induction false} SnapBounds(q: seq<Lot>, x: real)
    requires Live(q) && 0.0 <= x <= Total(q)
    ensures x <= Snap(q, x) <= x + DUST
    ensures Snap(q, x) <= Total(q)
  {
    if q != [] {
      TotalNonNegative(q[1..]);
      if x >= q[0].quantity {
        SnapBounds(q[1..], x - q[0].quantity);
      }
    }
  }

  lemma {:induction false} DropTotals(q: seq<Lot>, p: real)
    requires Live(q) && 0.0 <= p <= Total(q)
    ensures Live(Drop(q, p))
    ensures Total(Drop(q, p)) == Total(q) - p
  {
    if q != [] && p > 0.0 {
      if p >= q[0].quantity {
        DropTotals(q[1..], p - q[0].quantity);
      } else {
        assert Drop(q, p)[1..] == q[1..];
      }
    }
  }

  // The part of a queue beyond a point inside its first lot.
  lemma DropInside(q: seq<Lot>, p: real, x: real, k: Basis)
    requires Live(q) && q != [] && 0.0 < p < q[0].quantity && 0.0 <= x
    ensures Live(Drop(q, p))
    ensures Cumulative(Drop(q, p), x, k)
         == Charge(q[0], Clip(p + x, q[0].quantity), k) - Charge(q[0], p, k)
          + Cumulative(q[1..], p + x - q[0].quantity, k)
  {
    hide Charge;
    hide UnitWeight;
    var d, n := Drop(q, p), q[0].quantity;
    ShrinkKeepsCharge(q[0], p, Clip(x, n - p), k);
    assert d[1..] == q[1..];
    assert x - (n - p) == p + x - n;
    assert Clip(x, n - p) == Clip(p + x, n) - p;
    ChargeDifference(q[0], Clip(p + x, n), p, k);
  }

  lemma {:induction false} DropShifts(q: seq<Lot>, p: real, x: real, k: Basis)
    requires Live(q) && 0.0 <= p <= Total(q) && 0.0 <= x
    ensures Live(Drop(q, p))
    ensures Cumulative(Drop(q, p), x, k) == Cumulative(q, p + x, k) - Cumulative(q, p, k)
  {
    if q == [] {
    } else if p <= 0.0 {
      CumulativeEnds(q, p, k);
    } else if p >= q[0].quantity {
      DropShifts(q[1..], p - q[0].quantity, x, k);
      assert p + x - q[0].quantity == p - q[0].quantity + x;
    } else {
      DropInside(q, p, x, k);
      CumulativeEnds(q[1..], p - q[0].quantity, k);
    }
  }

  lemma {:induction false} DropTwice(q: seq<Lot>, p: real, x: real)
    requires Live(q) && 0.0 <= p && 0.0 <= x && p + x <= Total(q)
    ensures Drop(Drop(q, p), x) == Drop(q, p + x)
  {
    if q == [] || p <= 0.0 {
    } else if p >= q[0].quantity {
      DropTwice(q[1..], p - q[0].quantity, x);
      assert p + x - q[0].quantity == p - q[0].quantity + x;
    } else {
      var d := Drop(q, p);
      assert d[1..] == q[1..] && d[0] == Shrink(q[0], p);
      if x > 0.0 {
        if p + x >= q[0].quantity {
          assert x - d[0].quantity == p + x - q[0].quantity;
        } else {
          ShrinkTwice(q[0], p, x);
        }
      }
    }
  }

  lemma {:induction false} SnapAfterDrop(q: seq<Lot>, p: real, x: real)
    requires Live(q) && 0.0 <= p && 0.0 < x && p + x <= Total(q)
    ensures p + Snap(Drop(q, p), x) == Snap(q, p + x)
  {
    if q == [] || p <= 0.0 {
    } else if p >= q[0].quantity {
      SnapAfterDrop(q[1..], p - q[0].quantity, x);
      assert p + x - q[0].quantity == p - q[0].quantity + x;
    } else {
      var d := Drop(q, p);
      assert d[1..] == q[1..] && d[0] == Shrink(q[0], p);
      if p + x >= q[0].quantity {
        assert x - d[0].quantity == p + x - q[0].quantity;
      }
    }
  }

  // What one SELL does to a queue, in terms of intervals only.
  lemma {:induction false} ConsumeQuantities(q: seq<Lot>, r: real)
    requires Live(q) && r >= 0.0
    ensures var o, m := Consume(q, r), Min(r, Total(q));
            && 0.0 <= m <= Snap(q, m) <= Total(q)
            && Snap(q, m) <= m + DUST
            && o.remaining == r - m
            && o.queue == Drop(q, Snap(q, m))
            && MatchedQuantity(o.matched) == m
            && o.dropped.quantity == Snap(q, m) - m
  {
    hide Consume;
    hide Snap;
    hide Drop;
    TotalNonNegative(q);
    var m := Min(r, Total(q));
    SnapBounds(q, m);
    if q == [] || r <= 0.0 {
      SellOfNothing(q, r);
    } else {
      TotalNonNegative(q[1..]);
      var n := q[0].quantity;
      if r >= n {
        ConsumeQuantities(q[1..], r - n);
        WholeLotQuantities(q, r);
        SnapBounds(q[1..], m - n);
        PastFirstLot(q, m, Snap(q, m));
      } else {
        PartOfLotQuantities(q, r);
      }
    }
  }

  lemma SellOfNothing(q: seq<Lot>, r: real)
    requires q == [] || r <= 0.0
    ensures Consume(q, r) == Outcome(q, r, 0.0, 0.0, [], NOTHING)
    ensures Snap(q, 0.0) == 0.0 && Drop(q, 0.0) == q
  {
  }

  lemma PastFirstLot(q: seq<Lot>, x: real, y: real)
    requires Live(q) && q != [] && x >= q[0].quantity && y >= q[0].quantity
    ensures Snap(q, x) == q[0].quantity + Snap(q[1..], x - q[0].quantity)
    ensures Drop(q, y) == Drop(q[1..], y - q[0].quantity)
  {
  }

  lemma WholeLotQuantities(q: seq<Lot>, r: real)
    requires Live(q) && q != [] && r >= q[0].quantity
    ensures var o, rest, n := Consume(q, r), Consume(q[1..], r - q[0].quantity), q[0].quantity;
            && o.queue == rest.queue && o.remaining == rest.remaining
            && o.dropped.quantity == rest.dropped.quantity
            && MatchedQuantity(o.matched) == n + MatchedQuantity(rest.matched)
  {
    hide Ratio;
    var o, rest := Consume(q, r), Consume(q[1..], r - q[0].quantity);
    assert o.matched[1..] == rest.matched;
  }

  lemma PartOfLotQuantities(q: seq<Lot>, r: real)
    requires Live(q) && q != [] && 0.0 < r < q[0].quantity
    ensures var o := Consume(q, r);
            && o.remaining == 0.0
            && o.queue == Drop(q, Snap(q, r))
            && MatchedQuantity(o.matched) == r
            && o.dropped.quantity == Snap(q, r) - r
  {
    hide Ratio;
    assert Consume(q[1..], 0.0) == Outcome(q[1..], 0.0, 0.0, 0.0, [], NOTHING);
    assert Drop(q[1..], 0.0) == q[1..] && Snap(q[1..], 0.0) == 0.0;
  }

  function Charged(o: Outcome, k: Basis): real {
    match k case CostBasis => o.basis case FeeBasis => o.buyFee
  }

  lemma {:induction false} ConsumeCharges(q: seq<Lot>, r: real, k: Basis)
    requires Live(q) && r >= 0.0
    ensures var o, m := Consume(q, r), Min(r, Total(q));
            && Charged(o, k) == Cumulative(q, m, k)
            && Weight(o.dropped, k) == Cumulative(q, Snap(q, m), k) - Cumulative(q, m, k)
  {
    hide Charge;
    hide Ratio;
    TotalNonNegative(q);
    if q == [] || r <= 0.0 {
      CumulativeEnds(q, 0.0, k);
    } else if r >= q[0].quantity {
      ConsumeCharges(q[1..], r - q[0].quantity, k);
      ConsumeWholeLot(q, r, k);
      TotalNonNegative(q[1..]);
      WholeLotCharges(q, Min(r, Total(q)), k);
    } else {
      TotalNonNegative(q[1..]);
      ConsumePartOfLot(q, r, k);
    }
  }

  lemma WholeLotCharges(q: seq<Lot>, m: real, k: Basis)
    requires Live(q) && q != [] && q[0].quantity <= m <= Total(q)
    ensures var n, tail := q[0].quantity, q[1..];
            && Cumulative(q, m, k) == Charge(q[0], n, k) + Cumulative(tail, m - n, k)
            && Cumulative(q, Snap(q, m), k) == Charge(q[0], n, k) + Cumulative(tail, Snap(tail, m - n), k)
  {
    hide Charge;
    SnapBounds(q[1..], m - q[0].quantity);
    CumulativePast(q, m, k);
    CumulativePast(q, Snap(q, m), k);
  }

  lemma CumulativePast(q: seq<Lot>, x: real, k: Basis)
    requires Live(q) && q != [] && x >= q[0].quantity
    ensures Cumulative(q, x, k)
         == Charge(q[0], q[0].quantity, k) + Cumulative(q[1..], x - q[0].quantity, k)
  {
  }

  lemma ConsumeWholeLot(q: seq<Lot>, r: real, k: Basis)
    requires Live(q) && q != [] && r >= q[0].quantity
    ensures Charged(Consume(q, r), k) == Charge(q[0], q[0].quantity, k) + Charged(Consume(q[1..], r - q[0].quantity), k)
    ensures Weight(Consume(q, r).dropped, k) == Weight(Consume(q[1..], r - q[0].quantity).dropped, k)
  {
    hide Charge;
    hide Ratio;
    RatioOfAll(q[0]);
    LotSplitsByCharge(q[0], q[0].quantity, k);
  }

  lemma ConsumePartOfLot(q: seq<Lot>, r: real, k: Basis)
    requires Live(q) && q != [] && 0.0 < r < q[0].quantity
    ensures Charged(Consume(q, r), k) == Cumulative(q, r, k)
    ensures Weight(Consume(q, r).dropped, k) == Cumulative(q, Snap(q, r), k) - Cumulative(q, r, k)
  {
    hide Charge;
    hide Ratio;
    LotSplitsByCharge(q[0], r, k);
    CumulativeEnds(q[1..], r - q[0].quantity, k);
    CumulativeEnds(q[1..], 0.0, k);
    assert Snap(q[1..], 0.0) == 0.0;
    assert Consume(q[1..], 0.0) == Outcome(q[1..], 0.0, 0.0, 0.0, [], NOTHING);
  }

  // ----- a SELL against a queue whose first p units are already used up

  lemma {:induction false} SnapAtTotal(q: seq<Lot>)
    requires Live(q)
    ensures Snap(q, Total(q)) == Total(q)
  {
    if q != [] {
      TotalNonNegative(q[1..]);
      SnapAtTotal(q[1..]);
    }
  }

  lemma SellReaches(bought: seq<Lot>, p: real, r: real)
    requires Live(bought) && 0.0 <= p <= Total(bought) && r > 0.0
    ensures var q, e := Drop(bought, p), Min(p + r, Total(bought));
            && Live(q)
            && Min(r, Total(q)) == e - p >= 0.0
            && p + Snap(q, e - p) == Snap(bought, e)
            && e <= Snap(bought, e) <= e + DUST
            && Snap(bought, e) <= Total(bought)
  {
    hide Shrink;
    var q, e := Drop(bought, p), Min(p + r, Total(bought));
    DropTotals(bought, p);
    TotalNonNegative(q);
    SnapBounds(bought, e);
    if e > p {
      SnapAfterDrop(bought, p, e - p);
    } else {
      SnapAtTotal(bought);
    }
  }

  lemma SellMovesPointer(bought: seq<Lot>, p: real, r: real)
    requires Live(bought) && 0.0 <= p <= Total(bought) && r > 0.0
    ensures var o, e := Consume(Drop(bought, p), r), Min(p + r, Total(bought));
            && o.queue == Drop(bought, Snap(bought, e))
            && r - o.remaining == e - p == MatchedQuantity(o.matched)
            && o.dropped.quantity == Snap(bought, e) - e
  {
    hide Consume;
    hide Drop;
    SellReaches(bought, p, r);
    var q, e := Drop(bought, p), Min(p + r, Total(bought));
    ConsumeQuantities(q, r);
    DropTwice(bought, p, Snap(q, e - p));
  }

  // The sell is charged each lot's overlap with [p, e); the dropped residual is [e, Snap(e)).
  lemma SellChargedByOverlap(bought: seq<Lot>, p: real, r: real, k: Basis)
    requires Live(bought) && 0.0 <= p <= Total(bought) && r > 0.0
    ensures var o, e := Consume(Drop(bought, p), r), Min(p + r, Total(bought));
            && Charged(o, k) == OverlapWeight(bought, 0.0, p, e, k)
            && Weight(o.dropped, k) == OverlapWeight(bought, 0.0, e, Snap(bought, e), k)
  {
    hide Consume;
    hide Drop;
    hide Cumulative;
    hide OverlapWeight;
    SellReaches(bought, p, r);
    var q, e := Drop(bought, p), Min(p + r, Total(bought));
    ConsumeCharges(q, r, k);
    DropShifts(bought, p, e - p, k);
    DropShifts(bought, p, Snap(q, e - p), k);
    OverlapIsDifference(bought, 0.0, p, e, k);
    OverlapIsDifference(bought, 0.0, e, Snap(bought, e), k);
  }

  // ----- a BUY appends a lot at the far end

  lemma {:induction false} AppendTotals(q: seq<Lot>, l: Lot, k: Basis)
    ensures Total(q + [l]) == Total(q) + l.quantity
    ensures TotalWeight(q + [l], k) == TotalWeight(q, k) + Weight(l, k)
  {
    if q == [] {
      assert q + [l] == [l];
    } else {
      assert (q + [l])[1..] == q[1..] + [l];
      AppendTotals(q[1..], l, k);
    }
  }

  lemma {:induction false} AppendCumulative(q: seq<Lot>, l: Lot, x: real, k: Basis)
    requires Live(q) && l.quantity > 0.0
    ensures Live(q + [l])
    ensures Cumulative(q + [l], x, k) == Cumulative(q, x, k) + Charge(l, Clip(x - Total(q), l.quantity), k)
  {
    if q == [] {
      assert q + [l] == [l];
    } else {
      assert (q + [l])[1..] == q[1..] + [l];
      AppendCumulative(q[1..], l, x - q[0].quantity, k);
      assert x - q[0].quantity - Total(q[1..]) == x - Total(q);
    }
  }

  lemma {:induction false} AppendKeepsFront(q: seq<Lot>, l: Lot, p: real)
    requires Live(q) && l.quantity > 0.0 && 0.0 <= p <= Total(q)
    ensures Drop(q + [l], p) == Drop(q, p) + [l]
    ensures Snap(q + [l], p) == Snap(q, p)
  {
    if q == [] {
      assert q + [l] == [l];
    } else {
      assert (q + [l])[1..] == q[1..] + [l];
      if p >= q[0].quantity {
        AppendKeepsFront(q[1..], l, p - q[0].quantity);
      }
    }
  }
}
