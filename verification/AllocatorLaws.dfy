/** What one allocator run promises: every candidate decided once, the budget and the
    exposure cap, distinct markets, and the slot coupling. */
module AllocatorLaws {
  import opened Basics
  import opened SlotTables
  import opened SlotReconcile
  import opened SlotCoupling
  import opened CapitalAllocator

  // ----- every visited candidate is decided exactly once

  predicate Accepted(r: Run, k: nat) {
    exists i :: 0 <= i < |r.accepted| && r.accepted[i].candidate == k
  }

  predicate Blocked(r: Run, k: nat) {
    exists i :: 0 <= i < |r.blocked| && r.blocked[i].candidate == k
  }

  function Decided(r: Run): nat { |r.accepted| + |r.blocked| }

  lemma VisitDecides(r: Run, k: nat, c: Candidate, e: Setting)
    ensures var r' := Visit(r, k, c, e);
            || (r'.accepted == r.accepted && |r'.blocked| == |r.blocked| + 1
                && r'.blocked[..|r.blocked|] == r.blocked && r'.blocked[|r.blocked|].candidate == k)
            || (r'.blocked == r.blocked && |r'.accepted| == |r.accepted| + 1
                && r'.accepted[..|r.accepted|] == r.accepted && r'.accepted[|r.accepted|].candidate == k)
  {
    hide ReserveEmpty;
    hide ReplaceReserved;
    hide EarlyCheck;
    hide ApprovedOrder;
    hide Renewed;
    hide RowAfter;
    var v := SameMarket(r.slots, c, e.scores, e.config.minDelta);
    if EarlyCheck(r.empty, r.openMarkets, c, v, e.snapshot).Clear? && !v.Replaceable? {
      EmptyForPlain(r, c, v, e);
    }
  }

  lemma {:induction false} DecidedExactlyOnce(start: Run, cs: seq<Candidate>, n: nat, e: Setting)
    requires n <= |cs| && start.accepted == [] && start.blocked == []
    ensures var r := Visits(start, cs, n, e);
            && |r.accepted| <= e.config.maxNew
            && Decided(r) <= n && (Decided(r) == n || |r.accepted| == e.config.maxNew)
            && (forall k: nat :: k < Decided(r) ==> (Accepted(r, k) <==> !Blocked(r, k)))
            && (forall k: nat :: k >= Decided(r) ==> !Accepted(r, k) && !Blocked(r, k))
  {
    hide Visit;
    hide Visits;
    if n == 0 {
      NoVisits(start, cs, e);
    } else {
      DecidedExactlyOnce(start, cs, n - 1, e);
      VisitsNext(start, cs, n, e);
      var r, r' := Visits(start, cs, n - 1, e), Visits(start, cs, n, e);
      if |r.accepted| < e.config.maxNew {
        VisitDecides(r, n - 1, cs[n - 1], e);
        DecidedAdvances(r, r', n - 1);
      }
    }
  }

  lemma DecidedAdvances(r: Run, r': Run, n: nat)
    requires Decided(r) == n
    requires forall k: nat :: k < n ==> (Accepted(r, k) <==> !Blocked(r, k))
    requires forall k: nat :: k >= n ==> !Accepted(r, k) && !Blocked(r, k)
    requires || (r'.accepted == r.accepted && |r'.blocked| == |r.blocked| + 1
                 && r'.blocked[..|r.blocked|] == r.blocked && r'.blocked[|r.blocked|].candidate == n)
             || (r'.blocked == r.blocked && |r'.accepted| == |r.accepted| + 1
                 && r'.accepted[..|r.accepted|] == r.accepted && r'.accepted[|r.accepted|].candidate == n)
    ensures Decided(r') == n + 1
    ensures forall k: nat :: k < n + 1 ==> (Accepted(r', k) <==> !Blocked(r', k))
    ensures forall k: nat :: k >= n + 1 ==> !Accepted(r', k) && !Blocked(r', k)
  {
    forall k: nat
      ensures Accepted(r', k) <==> Accepted(r, k) || (k == n && r'.blocked == r.blocked)
      ensures Blocked(r', k) <==> Blocked(r, k) || (k == n && r'.accepted == r.accepted)
    {
      if Accepted(r, k) {
        var i :| 0 <= i < |r.accepted| && r.accepted[i].candidate == k;
        assert r'.accepted[..|r.accepted|][i] == r'.accepted[i];
      }
      if Blocked(r, k) {
        var i :| 0 <= i < |r.blocked| && r.blocked[i].candidate == k;
        assert r'.blocked[..|r.blocked|][i] == r'.blocked[i];
      }
    }
  }

  // ----- money

  function Net(accepted: seq<Acceptance>): real {
    if accepted == [] then 0.0
    else
      var last := accepted[|accepted| - 1];
      Net(accepted[..|accepted| - 1]) + last.amount - last.released
  }

  function Total(accepted: seq<Acceptance>): real {
    if accepted == [] then 0.0 else Total(accepted[..|accepted| - 1]) + accepted[|accepted| - 1].amount
  }

  predicate NoReplacement(accepted: seq<Acceptance>) {
    forall i | 0 <= i < |accepted| :: !accepted[i].replaced
  }

  // What a single order may amount to.
  predicate Bounded(a: Acceptance, e: Setting) {
    && e.config.minOrder <= a.amount <= Min(e.config.maxSingle, e.config.maxOrder)
    && (!a.replaced ==> a.amount <= a.budgetBefore && a.released == 0.0)
    && (a.replaced ==> a.amount <= Max(Remaining(e.snapshot) + a.released, 0.0)
                       && a.amount <= CashAfterReserve(e.snapshot))
  }

  // The visit will pass every check and replace the entry of its market's slot.
  predicate Replaces(r: Run, c: Candidate, e: Setting) {
    var v := SameMarket(r.slots, c, e.scores, e.config.minDelta);
    && e.config.autoTrading && v.Replaceable?
    && EarlyCheck(r.empty, r.openMarkets, c, v, e.snapshot).Clear?
    && ApprovedOrder(r.budget, c, v, Released(r.slots, v), e) >= e.config.minOrder
  }

  // One of the five limits on a replacement is within the budget left plus the money
  // the slot releases. The code takes no minimum with that sum.
  predicate VisitFits(r: Run, c: Candidate, e: Setting) {
    Replaces(r, c, e) ==>
      var released := Released(r.slots, SameMarket(r.slots, c, e.scores, e.config.minDelta));
      var room := r.budget + released;
      || Max(Remaining(e.snapshot) + released, 0.0) <= room || CashAfterReserve(e.snapshot) <= room
      || DesiredOrder(c, e.config) <= room || e.config.maxSingle <= room || e.config.maxOrder <= room
  }

  predicate VisitAccepts(r: Run, r': Run, c: Candidate, e: Setting) {
    && |r'.accepted| == |r.accepted| + 1 && r'.accepted[..|r.accepted|] == r.accepted
    && var a := r'.accepted[|r.accepted|];
       && Bounded(a, e) && a.budgetBefore == r.budget && a.replaced == Replaces(r, c, e)
       && r'.budget == Max(r.budget + a.released - a.amount, 0.0)
       && (a.amount <= r.budget + a.released <==> VisitFits(r, c, e))
  }

  // One visit, as far as money goes.
  lemma VisitMoney(r: Run, k: nat, c: Candidate, e: Setting)
    requires e.config.minOrder >= 0.0
    ensures var r' := Visit(r, k, c, e);
            || (r'.accepted == r.accepted && r'.budget == r.budget && r'.slots == r.slots && !Replaces(r, c, e))
            || VisitAccepts(r, r', c, e)
  {
    hide ReserveEmpty;
    hide ReplaceReserved;
    hide EarlyCheck;
    hide DesiredOrder;
    hide Renewed;
    hide RowAfter;
    hide SizeReason;
    hide SameMarket;
    hide Remaining;
    hide CashAfterReserve;
    var v := SameMarket(r.slots, c, e.scores, e.config.minDelta);
    if EarlyCheck(r.empty, r.openMarkets, c, v, e.snapshot).Clear? && !v.Replaceable? {
      EmptyForPlain(r, c, v, e);
    }
  }

  // The net amount has stayed within the starting budget up to the n-th candidate.
  predicate NetWithin(start: Run, cs: seq<Candidate>, n: nat, e: Setting)
    requires n <= |cs|
  {
    forall i | 0 <= i <= n :: Net(Visits(start, cs, i, e).accepted) <= start.budget
  }

  predicate AllFit(start: Run, cs: seq<Candidate>, n: nat, e: Setting)
    requires n <= |cs|
  {
    forall i | 0 <= i < n && |Visits(start, cs, i, e).accepted| < e.config.maxNew :: VisitFits(Visits(start, cs, i, e), cs[i], e)
  }

  lemma VisitNet(r: Run, r': Run, c: Candidate, e: Setting, start: real)
    requires VisitAccepts(r, r', c, e) && r.budget == start - Net(r.accepted) && r.budget >= 0.0
    ensures Net(r'.accepted) <= start <==> VisitFits(r, c, e)
    ensures VisitFits(r, c, e) ==> r'.budget == start - Net(r'.accepted)
  {
    hide VisitFits;
    hide Bounded;
    hide Replaces;
  }

  lemma NoReplacementFits(r: Run, c: Candidate, e: Setting)
    requires !Replaces(r, c, e)
    ensures VisitFits(r, c, e)
  {
  }

  lemma VisitAmounts(r: Run, r': Run, c: Candidate, e: Setting)
    requires VisitAccepts(r, r', c, e)
    ensures r'.budget >= 0.0
    ensures exists a :: r'.accepted == r.accepted + [a] && Bounded(a, e) && a.replaced == Replaces(r, c, e)
  {
    var a := r'.accepted[|r.accepted|];
    assert r'.accepted == r'.accepted[..|r.accepted|] + [a];
    hide Bounded;
    hide Replaces;
  }

  lemma NothingVisited(start: Run, cs: seq<Candidate>, e: Setting)
    requires start.accepted == [] && start.budget >= 0.0
    ensures Visits(start, cs, 0, e) == start && Net([]) == 0.0
    ensures NetWithin(start, cs, 0, e) && AllFit(start, cs, 0, e)
  {
    hide VisitFits;
  }

  // Each order is bounded and the budget is what the orders have left.
  lemma {:induction false} BudgetTracks(start: Run, cs: seq<Candidate>, n: nat, e: Setting)
    requires n <= |cs| && start.accepted == [] && start.budget >= 0.0 && e.config.minOrder >= 0.0
    ensures var r := Visits(start, cs, n, e);
            && r.budget >= 0.0
            && (NetWithin(start, cs, n, e) ==> r.budget == start.budget - Net(r.accepted))
            && (forall i | 0 <= i < |r.accepted| :: Bounded(r.accepted[i], e))
    ensures NetWithin(start, cs, n, e) <==> AllFit(start, cs, n, e)
  {
    hide Visits;
    hide Visit;
    hide VisitAccepts;
    hide Replaces;
    hide Bounded;
    hide VisitFits;
    hide NetWithin;
    hide AllFit;
    hide Net;
    if n == 0 {
      NothingVisited(start, cs, e);
    } else {
      BudgetTracks(start, cs, n - 1, e);
      LastVisit(start, cs, n, e);
      VisitsNext(start, cs, n, e);
      var r, r', c := Visits(start, cs, n - 1, e), Visits(start, cs, n, e), cs[n - 1];
      if |r.accepted| < e.config.maxNew {
        VisitMoney(r, n - 1, c, e);
        if VisitAccepts(r, r', c, e) {
          VisitAmounts(r, r', c, e);
          if NetWithin(start, cs, n - 1, e) {
            VisitNet(r, r', c, e, start.budget);
          }
        } else {
          NoReplacementFits(r, c, e);
        }
      }
      assert NetWithin(start, cs, n - 1, e) ==> Net(r.accepted) <= start.budget by {
        if NetWithin(start, cs, n - 1, e) {
        }
      }
    }
  }

  // Both statements about n candidates, by the first n - 1 and the last one.
  lemma LastVisit(start: Run, cs: seq<Candidate>, n: nat, e: Setting)
    requires 0 < n <= |cs|
    ensures NetWithin(start, cs, n, e)
            <==> NetWithin(start, cs, n - 1, e) && Net(Visits(start, cs, n, e).accepted) <= start.budget
    ensures var r := Visits(start, cs, n - 1, e);
            AllFit(start, cs, n, e)
            <==> AllFit(start, cs, n - 1, e) && (|r.accepted| < e.config.maxNew ==> VisitFits(r, cs[n - 1], e))
  {
    hide Visits;
    hide Net;
    hide VisitFits;
  }

  // The net amount stays within the snapshot budget at every point of a run exactly
  // when each visit fits, judged by the state in front of it.
  lemma NetWithinBudgetExactlyWhenFitting(start: Run, cs: seq<Candidate>, e: Setting)
    requires start.accepted == [] && start.budget >= 0.0 && e.config.minOrder >= 0.0
    ensures NetWithin(start, cs, |cs|, e) <==> AllFit(start, cs, |cs|, e)
  {
    BudgetTracks(start, cs, |cs|, e);
  }

  lemma DesiredAtTheTop(c: Candidate, config: Config)
    requires config.maxSingle == 100.0 && config.minOrder == 5.0 && c.rank >= 100.0
    ensures DesiredOrder(c, config) == 100.0
  {
    assert Min(c.rank, 100.0) == 100.0;
  }

  predicate Unblocked(c: Candidate) {
    !c.hasPosition && !c.unresolvedOrder && c.liveAllowed && c.edgeCoversCost && c.rank >= 100.0
  }

  // A snapshot with 90 of exposure left, for orders between 5 and 100.
  predicate NinetyLeft(e: Setting) {
    && e.snapshot == Snapshot(100.0, 0.0, 10.0, 0.0, Krw(1000.0), 5.0, false, false, false)
    && e.config.maxNew == 2 && e.config.minOrder == 5.0 && e.config.autoTrading
    && e.config.maxSingle == 100.0 && e.config.maxOrder >= 100.0 && e.scores == map[]
  }

  lemma PlainEntryOfNinety(r: Run, k: nat, c: Candidate, e: Setting)
    requires NinetyLeft(e) && Unblocked(c) && r.budget == 90.0 && r.empty != [] && c.market !in r.openMarkets
    requires SameMarket(r.slots, c, e.scores, e.config.minDelta).NoSameMarketSlot?
    ensures var r' := Visit(r, k, c, e);
            && r'.accepted == r.accepted + [Acceptance(k, c.market, r.empty[0].id, 90.0, false, 0.0, 90.0)]
            && r'.budget == 0.0 && r'.slots == r.slots && r'.openMarkets == r.openMarkets + {c.market}
  {
    hide ReserveEmpty;
    hide SameMarket;
    DesiredAtTheTop(c, e.config);
    hide DesiredOrder;
  }

  lemma ReplacementOfHundred(r: Run, k: nat, c: Candidate, i: nat, e: Setting)
    requires NinetyLeft(e) && Unblocked(c) && r.budget == 0.0 && c.market !in r.openMarkets
    requires SameMarket(r.slots, c, e.scores, e.config.minDelta) == Replaceable(i) && r.slots[i].reserved == 10.0
    ensures Visit(r, k, c, e).accepted
         == r.accepted + [Acceptance(k, c.market, r.slots[i].id, 100.0, true, 10.0, 0.0)]
  {
    hide ReplaceReserved;
    hide RowAfter;
    hide Renewed;
    hide SameMarket;
    DesiredAtTheTop(c, e.config);
    hide DesiredOrder;
  }

  // It can fail: a plain entry spends the budget of 90, and a replacement is then sized
  // from the exposure of 90 left at the start plus the 10 it releases.
  lemma ReplacementOverspends(t: Tables, first: Candidate, second: Candidate, session: int, e: Setting)
    requires NinetyLeft(e) && Unblocked(first) && Unblocked(second)
    requires |t.slots| == 2 && t.slots[0].status.Empty? && t.slots[0].market == ""
    requires t.slots[1].status.Reserved? && t.slots[1].position == 0 && t.slots[1].reserved == 10.0
    requires t.slots[1].market == second.market && t.slots[1].candidate != second.id
    requires first.market != second.market && first.market != "" && second.market != ""
    ensures var start := StartRun(t, {}, session, e);
            var accepted := Visits(start, [first, second], 2, e).accepted;
            && start.budget == Budget(e.snapshot) == 90.0
            && |accepted| == 2 && accepted[0].amount == 90.0 && accepted[1].amount == 100.0 && accepted[1].released == 10.0
            && Net(accepted) == 180.0
  {
    hide Visit;
    hide Visits;
    hide EmptyOf;
    hide SameMarket;
    hide Net;
    var start, cs := StartRun(t, {}, session, e), [first, second];
    EmptyThenReserved(t.slots, first, second, e);
    NoVisits(start, cs, e);
    VisitsNext(start, cs, 1, e);
    VisitsNext(start, cs, 2, e);
    PlainEntryOfNinety(start, 0, first, e);
    var one := Visits(start, cs, 1, e);
    ReplacementOfHundred(one, 1, second, 1, e);
    var a, b := one.accepted[0], Visits(start, cs, 2, e).accepted[1];
    assert Visits(start, cs, 2, e).accepted == [a, b];
    NetOfTwo(a, b);
  }

  lemma NetOfTwo(a: Acceptance, b: Acceptance)
    ensures Net([a, b]) == a.amount - a.released + b.amount - b.released
  {
    assert [a, b][..1] == [a] && [a][..0] == [];
    assert Net([a]) == Net([]) + a.amount - a.released;
  }

  // What the run makes of an EMPTY slot followed by one reserved for the second market.
  lemma EmptyThenReserved(slots: seq<Slot>, first: Candidate, second: Candidate, e: Setting)
    requires |slots| == 2 && slots[0].status.Empty? && slots[0].market == ""
    requires slots[1].status.Reserved? && slots[1].position == 0
    requires slots[1].market == second.market && slots[1].candidate != second.id && e.scores == map[]
    requires first.market != second.market && first.market != "" && second.market != ""
    ensures EmptyOf(slots) == [slots[0]]
    ensures SameMarket(slots, first, e.scores, e.config.minDelta).NoSameMarketSlot?
    ensures SameMarket(slots, second, e.scores, e.config.minDelta) == Replaceable(1)
  {
    var rest := slots[1..];
    assert rest == [slots[1]] && rest[1..] == [];
    assert EmptyOf(rest[1..]) == [] && EmptyOf(rest) == [];
    assert SameMarket(rest[1..], first, e.scores, e.config.minDelta).NoSameMarketSlot?;
    assert SameMarket(rest, first, e.scores, e.config.minDelta).NoSameMarketSlot?;
    assert SameMarket(rest, second, e.scores, e.config.minDelta) == Replaceable(0);
  }

  // Until something is accepted, a replacement always fits.
  lemma FirstReplacementFits(r: Run, c: Candidate, e: Setting)
    requires r.budget == Budget(e.snapshot) && e.snapshot.cashReserve >= 0.0
    requires forall i | 0 <= i < |r.slots| :: r.slots[i].reserved >= 0.0
    ensures VisitFits(r, c, e)
  {
    hide SameMarket;
    hide EarlyCheck;
    hide DesiredOrder;
    hide ApprovedOrder;
  }

  lemma {:induction false} NothingAcceptedYet(start: Run, cs: seq<Candidate>, n: nat, e: Setting)
    requires n <= |cs| && start.accepted == [] && e.config.minOrder >= 0.0
    requires |Visits(start, cs, n, e).accepted| == 0
    ensures Visits(start, cs, n, e).budget == start.budget && Visits(start, cs, n, e).slots == start.slots
  {
    hide Visit;
    if n > 0 {
      var r := Visits(start, cs, n - 1, e);
      if |r.accepted| < e.config.maxNew {
        VisitMoney(r, n - 1, cs[n - 1], e);
        hide VisitFits;
        hide Bounded;
      }
      NothingAcceptedYet(start, cs, n - 1, e);
    }
  }

  // A run limited to one new entry stays within the budget, replacements included.
  lemma OneEntryStaysWithinBudget(start: Run, cs: seq<Candidate>, e: Setting)
    requires start.accepted == [] && start.budget == Budget(e.snapshot) && e.config.minOrder >= 0.0
    requires e.config.maxNew <= 1 && e.snapshot.cashReserve >= 0.0
    requires forall i | 0 <= i < |start.slots| :: start.slots[i].reserved >= 0.0
    ensures NetWithin(start, cs, |cs|, e)
  {
    hide VisitFits;
    forall i | 0 <= i < |cs| && |Visits(start, cs, i, e).accepted| < e.config.maxNew
      ensures VisitFits(Visits(start, cs, i, e), cs[i], e)
    {
      NothingAcceptedYet(start, cs, i, e);
      FirstReplacementFits(Visits(start, cs, i, e), cs[i], e);
    }
    NetWithinBudgetExactlyWhenFitting(start, cs, e);
  }

  lemma {:induction false} NetWithoutReplacement(accepted: seq<Acceptance>, e: Setting)
    requires NoReplacement(accepted) && forall i | 0 <= i < |accepted| :: Bounded(accepted[i], e)
    ensures Net(accepted) == Total(accepted)
    ensures e.config.minOrder >= 0.0 ==> Total(accepted) >= 0.0
    ensures e.config.minOrder > 0.0 && accepted != [] ==> Total(accepted) > 0.0
  {
    if accepted != [] {
      var n := |accepted| - 1;
      NetWithoutReplacement(accepted[..n], e);
      assert !accepted[n].replaced;
    }
  }

  // Without a replacement among the acceptances every visit fits.
  lemma {:induction false} PlainRunsFit(start: Run, cs: seq<Candidate>, n: nat, e: Setting)
    requires n <= |cs| && e.config.minOrder >= 0.0
    requires NoReplacement(Visits(start, cs, n, e).accepted)
    ensures AllFit(start, cs, n, e)
  {
    hide Visits;
    hide Visit;
    hide VisitAccepts;
    hide VisitFits;
    hide Replaces;
    hide Bounded;
    hide AllFit;
    if n == 0 {
      NoneToFit(start, cs, e);
    } else {
      LastVisit(start, cs, n, e);
      VisitsNext(start, cs, n, e);
      var r, r', c := Visits(start, cs, n - 1, e), Visits(start, cs, n, e), cs[n - 1];
      if |r.accepted| < e.config.maxNew {
        VisitMoney(r, n - 1, c, e);
        if VisitAccepts(r, r', c, e) {
          VisitAmounts(r, r', c, e);
          var a :| r'.accepted == r.accepted + [a] && Bounded(a, e) && a.replaced == Replaces(r, c, e);
          assert forall i | 0 <= i < |r.accepted| :: r.accepted[i] == r'.accepted[i];
          assert r'.accepted[|r.accepted|] == a;
        }
        NoReplacementFits(r, c, e);
      }
      PlainRunsFit(start, cs, n - 1, e);
    }
  }

  lemma NoneToFit(start: Run, cs: seq<Candidate>, e: Setting)
    ensures AllFit(start, cs, 0, e)
  {
  }

  // A run without replacement keeps the exposure cap and the cash reserve.
  lemma ExposureStaysWithinCap(start: Run, cs: seq<Candidate>, e: Setting)
    requires start.accepted == [] && start.budget == Budget(e.snapshot) && e.config.minOrder >= 0.0
    requires NoReplacement(Visits(start, cs, |cs|, e).accepted)
    ensures var accepted := Visits(start, cs, |cs|, e).accepted;
            && 0.0 <= Total(accepted) <= Budget(e.snapshot)
            && (Total(accepted) > 0.0 ==> WithinCap(e.snapshot, Total(accepted)))
            && (e.config.minOrder > 0.0 && accepted != [] ==> Total(accepted) > 0.0)
  {
    hide Visits;
    hide Bounded;
    hide Net;
    hide Total;
    hide AllFit;
    BudgetTracks(start, cs, |cs|, e);
    PlainRunsFit(start, cs, |cs|, e);
    var r := Visits(start, cs, |cs|, e);
    NetWithoutReplacement(r.accepted, e);
    if Total(r.accepted) > 0.0 {
    }
  }

  // Open value, pending money and `total` stay under the cap, and cash over the reserve.
  predicate WithinCap(s: Snapshot, total: real) {
    && s.openValue + s.pendingReserved + s.pendingExchange + total <= s.maxTotal
    && s.available.Krw? && s.available.amount - total >= s.cashReserve
  }

  // Cap and reserve hold after a run that accepted something exactly when the minimum
  // order is positive or the snapshot itself was within both.
  lemma CapHoldsExactlyWhen(start: Run, cs: seq<Candidate>, e: Setting)
    requires start.accepted == [] && start.budget == Budget(e.snapshot) && e.config.minOrder >= 0.0
    requires var accepted := Visits(start, cs, |cs|, e).accepted; accepted != [] && NoReplacement(accepted)
    ensures WithinCap(e.snapshot, Total(Visits(start, cs, |cs|, e).accepted))
            <==> e.config.minOrder > 0.0 || WithinCap(e.snapshot, 0.0)
  {
    hide Visits;
    hide Total;
    ExposureStaysWithinCap(start, cs, e);
  }

  // With a zero minimum an order of nothing is accepted even past the cap.
  lemma ZeroMinimumAcceptsPastTheCap(t: Tables, c: Candidate, session: int, e: Setting)
    requires |t.slots| == 1 && t.slots[0].status.Empty? && t.slots[0].market == "" != c.market
    requires !c.hasPosition && !c.unresolvedOrder && c.liveAllowed && c.edgeCoversCost && c.rank >= 0.0
    requires e.config.autoTrading && e.config.maxNew == 1
    requires e.config.minOrder == 0.0 && e.config.maxSingle >= 0.0 && e.config.maxOrder >= 0.0
    requires !e.snapshot.failed && !e.snapshot.balanceMismatch && !e.snapshot.orderMismatch
    requires e.snapshot.openValue > e.snapshot.maxTotal
    requires e.snapshot.pendingReserved >= 0.0 && e.snapshot.pendingExchange >= 0.0
    ensures var r := Visits(StartRun(t, {}, session, e), [c], 1, e);
            |r.accepted| == 1 && Total(r.accepted) == 0.0 && !r.accepted[0].replaced
  {
    var start := StartRun(t, {}, session, e);
    hide ReserveEmpty;
    assert EmptyOf(t.slots[1..]) == [];
    assert SameMarket(t.slots[1..], c, e.scores, e.config.minDelta).NoSameMarketSlot?;
    assert Remaining(e.snapshot) == 0.0 && Budget(e.snapshot) == 0.0;
    assert DesiredOrder(c, e.config) >= 0.0;
    assert Visits(start, [c], 0, e) == start;
    var r := Visit(start, 0, c, e);
    assert |r.accepted| == 1;
    assert r.accepted[..0] == [];
  }

  // ----- markets, slots and the coupling

  // EMPTY slots name no market, and no market is named by two others.
  predicate DistinctMarkets(slots: seq<Slot>) {
    && (forall i | 0 <= i < |slots| && slots[i].status.Empty? :: slots[i].market == "")
    && forall i, j | 0 <= i < j < |slots| && !slots[i].status.Empty? && !slots[j].status.Empty? ::
         slots[i].market != slots[j].market
  }

  predicate MarketsReady(t: Tables) {
    DistinctSlots(t.slots) && DistinctMarkets(t.slots)
  }

  // The run's own list lags behind the table only where this run reserved a slot.
  predicate View(r: Run) {
    && |r.slots| == |r.tables.slots|
    && forall i | 0 <= i < |r.slots| ::
         && r.slots[i].id == r.tables.slots[i].id
         && (|| r.slots[i] == r.tables.slots[i]
             || (&& r.slots[i].status.Empty? && r.slots[i].market == ""
                 && r.tables.slots[i].status.Reserved? && r.tables.slots[i].market in r.openMarkets))
  }

  predicate Free(r: Run, s: Slot) {
    exists i :: 0 <= i < |r.slots| && i < |r.tables.slots| && r.slots[i] == s && r.tables.slots[i] == s && s.status.Empty?
  }

  predicate EmptyView(r: Run) {
    && (forall j | 0 <= j < |r.empty| :: Free(r, r.empty[j]))
    && forall i, j | 0 <= i < j < |r.empty| :: r.empty[i].id != r.empty[j].id
  }

  // Each acceptance has its own market, closed to the candidates after it.
  predicate OwnMarkets(r: Run, before: set<string>) {
    && before <= r.openMarkets
    && (forall i | 0 <= i < |r.accepted| :: r.accepted[i].market in r.openMarkets && r.accepted[i].market !in before)
    && forall i, j | 0 <= i < j < |r.accepted| :: r.accepted[i].market != r.accepted[j].market
  }

  // A slot given away to a new entry is not handed out again.
  predicate OwnSlots(r: Run) {
    && (forall i, j | 0 <= i < |r.accepted| && !r.accepted[i].replaced && 0 <= j < |r.empty| ::
          r.accepted[i].slot != r.empty[j].id)
    && forall i, j | 0 <= i < j < |r.accepted| && !r.accepted[i].replaced && !r.accepted[j].replaced ::
         r.accepted[i].slot != r.accepted[j].slot
  }

  predicate RunReady(r: Run, before: set<string>) {
    MarketsReady(r.tables) && View(r) && EmptyView(r) && OwnMarkets(r, before) && OwnSlots(r)
  }

  lemma AcceptEmptyTables(t: Tables, i: nat, entry: Entry, now: int)
    requires MarketsReady(t) && i < |t.slots| && t.slots[i].status.Empty?
    requires forall j | 0 <= j < |t.slots| :: t.slots[j].market != entry.market
    ensures MarketsReady(ReserveEmpty(t, t.slots[i].id, entry, now))
  {
    ReserveRow(t, i, entry, now);
    hide ReserveEmpty;
  }

  lemma AcceptReplacementTables(t: Tables, i: nat, entry: Entry, now: int)
    requires MarketsReady(t) && i < |t.slots| && t.slots[i].status.Reserved? && entry.market == t.slots[i].market
    ensures MarketsReady(ReplaceReserved(t, t.slots[i], entry, now))
    ensures ReplaceReserved(t, t.slots[i], entry, now).slots
         == t.slots[i := ReservedSlot(t.slots[i], entry.market, entry.candidate, entry.session, entry.amount, now)]
  {
    var rs := SetStatus(t.reservations, Where(t.slots[i].candidate, entry.market, {Held}), Replaced);
    ReserveRow(t.(reservations := rs), i, entry, now);
    ReserveRow(t, i, entry, now);
    hide ReserveEmpty;
    hide SetStatus;
  }

  lemma IndexIsUnique(slots: seq<Slot>, i: nat)
    requires DistinctSlots(slots) && i < |slots|
    ensures IndexOf(slots, slots[i].id) == i
  {
  }

  // Giving the first free slot away, as far as the run's own lists are concerned.
  lemma AcceptEmptyLists(r: Run, r': Run, i: nat, row: Slot)
    requires View(r) && EmptyView(r) && r.empty != [] && DistinctSlots(r.tables.slots)
    requires i < |r.slots| && r.slots[i] == r.empty[0] == r.tables.slots[i] && r.empty[0].status.Empty?
    requires r.empty[0].market == "" && row.id == r.empty[0].id
    requires row.status.Reserved? && row.market in r'.openMarkets && r.openMarkets <= r'.openMarkets
    requires r'.slots == r.slots && r'.empty == r.empty[1..] && r'.tables.slots == r.tables.slots[i := row]
    ensures View(r') && EmptyView(r')
  {
    forall j | 0 <= j < |r'.empty| ensures Free(r', r'.empty[j]) {
      assert Free(r, r.empty[j + 1]);
      var m :| 0 <= m < |r.slots| && m < |r.tables.slots| && r.slots[m] == r.empty[j + 1]
               && r.tables.slots[m] == r.empty[j + 1];
      assert m != i;
      assert r'.slots[m] == r'.empty[j] && r'.tables.slots[m] == r'.empty[j];
    }
  }

  lemma AcceptEmptyReady(r: Run, k: nat, c: Candidate, amount: real, e: Setting, before: set<string>)
    requires RunReady(r, before) && r.empty != []
    requires SameMarket(r.slots, c, e.scores, e.config.minDelta).NoSameMarketSlot?
    requires c.market !in r.openMarkets
    ensures RunReady(AcceptEmpty(r, k, c, amount, e), before)
  {
    hide ReserveEmpty;
    var s := r.empty[0];
    assert Free(r, s);
    var i :| 0 <= i < |r.slots| && i < |r.tables.slots| && r.slots[i] == s && r.tables.slots[i] == s && s.status.Empty?;
    assert s.market == "" && c.market != "";
    var entry := EntryOf(r.nextSession, c, amount, e);
    AcceptEmptyTables(r.tables, i, entry, e.now);
    ReserveRow(r.tables, i, entry, e.now);
    var r' := AcceptEmpty(r, k, c, amount, e);
    var row := ReservedSlot(s, c.market, c.id, r.nextSession, amount, e.now);
    assert r'.tables.slots == r.tables.slots[i := row];
    AcceptEmptyLists(r, r', i, row);
    hide View;
    hide EmptyView;
    hide MarketsReady;
    hide SameMarket;
    AcceptEmptyOwn(r, r', r'.accepted[|r.accepted|], before);
  }

  lemma AcceptEmptyOwn(r: Run, r': Run, a: Acceptance, before: set<string>)
    requires OwnMarkets(r, before) && OwnSlots(r) && r.empty != [] && a.market !in r.openMarkets
    requires forall i, j | 0 <= i < j < |r.empty| :: r.empty[i].id != r.empty[j].id
    requires !a.replaced && a.slot == r.empty[0].id
    requires r'.accepted == r.accepted + [a] && r'.empty == r.empty[1..] && r'.openMarkets == r.openMarkets + {a.market}
    ensures OwnMarkets(r', before) && OwnSlots(r')
  {
    assert forall j | 0 <= j < |r'.empty| :: r'.empty[j] == r.empty[j + 1];
  }

  // Renewing one RESERVED row in the run's list and in the table.
  lemma AcceptReplacementLists(r: Run, r': Run, i: nat, row: Slot)
    requires View(r) && EmptyView(r) && i < |r.slots| && r.slots[i].status.Reserved? && row.id == r.slots[i].id
    requires r.openMarkets <= r'.openMarkets && r'.empty == r.empty
    requires r'.slots == r.slots[i := row] && r'.tables.slots == r.tables.slots[i := row]
    ensures View(r') && EmptyView(r')
  {
    forall j | 0 <= j < |r'.empty| ensures Free(r', r'.empty[j]) {
      assert Free(r, r.empty[j]);
      var m :| 0 <= m < |r.slots| && m < |r.tables.slots| && r.slots[m] == r.empty[j] && r.tables.slots[m] == r.empty[j];
      assert m != i;
      assert r'.slots[m] == r'.empty[j] && r'.tables.slots[m] == r'.empty[j];
    }
  }

  lemma RenewedRow(slots: seq<Slot>, i: nat, row: Slot)
    requires i < |slots| && slots[i].id == row.id
    requires forall j | 0 <= j < |slots| && j != i :: slots[j].id != row.id
    ensures Renewed(slots, row) == slots[i := row]
  {
  }

  lemma AcceptReplacementReady(r: Run, k: nat, c: Candidate, i: nat, amount: real, e: Setting, before: set<string>)
    requires RunReady(r, before)
    requires i < |r.slots| && r.slots[i].status.Reserved? && r.slots[i].market == c.market
    requires c.market !in r.openMarkets
    ensures RunReady(AcceptReplacement(r, k, c, r.slots[i], amount, e), before)
  {
    hide ReplaceReserved;
    hide Renewed;
    hide IndexOf;
    var s := r.slots[i];
    assert r.tables.slots[i] == s;
    AcceptReplacementTables(r.tables, i, EntryOf(r.nextSession, c, amount, e), e.now);
    var r' := AcceptReplacement(r, k, c, s, amount, e);
    var row := ReservedSlot(s, c.market, c.id, r.nextSession, amount, e.now);
    IndexIsUnique(r'.tables.slots, i);
    assert RowAfter(r'.tables, s) == row;
    assert DistinctSlots(r.tables.slots);
    RenewedRow(r.slots, i, row);
    AcceptReplacementLists(r, r', i, row);
    hide View;
    hide EmptyView;
    hide MarketsReady;
    assert OwnMarkets(r', before);
    assert OwnSlots(r');
  }

  lemma VisitReady(r: Run, k: nat, c: Candidate, e: Setting, before: set<string>)
    requires RunReady(r, before)
    ensures RunReady(Visit(r, k, c, e), before)
  {
    hide RunReady;
    hide ApprovedOrder;
    hide SizeReason;
    hide AcceptEmpty;
    hide AcceptReplacement;
    var v := SameMarket(r.slots, c, e.scores, e.config.minDelta);
    var check := EarlyCheck(r.empty, r.openMarkets, c, v, e.snapshot);
    var approved := ApprovedOrder(r.budget, c, v, Released(r.slots, v), e);
    if e.config.autoTrading && check.Clear? && approved >= e.config.minOrder {
      if v.Replaceable? {
        AcceptReplacementReady(r, k, c, v.index, approved, e, before);
      } else {
        AcceptEmptyReady(r, k, c, approved, e, before);
      }
    } else {
      BlockingKeepsReady(r, Visit(r, k, c, e), before);
    }
  }

  lemma BlockingKeepsReady(r: Run, r': Run, before: set<string>)
    requires RunReady(r, before) && r' == r.(blocked := r'.blocked)
    ensures RunReady(r', before)
  {
    assert forall s | Free(r, s) :: Free(r', s);
  }

  lemma {:induction false} EmptyOfMembers(slots: seq<Slot>)
    ensures forall s :: s in EmptyOf(slots) <==> s in slots && s.status.Empty?
    ensures DistinctSlots(slots) ==> forall i, j | 0 <= i < j < |EmptyOf(slots)| :: EmptyOf(slots)[i].id != EmptyOf(slots)[j].id
  {
    if slots != [] {
      var rest := EmptyOf(slots[1..]);
      EmptyOfMembers(slots[1..]);
      assert slots == [slots[0]] + slots[1..];
      if DistinctSlots(slots) {
        forall j | 0 <= j < |rest| ensures rest[j].id != slots[0].id {
          assert rest[j] in rest;
          var m :| 0 <= m < |slots[1..]| && slots[1..][m] == rest[j];
          assert slots[m + 1] == rest[j];
        }
      }
    }
  }

  lemma StartIsReady(t: Tables, openMarkets: set<string>, session: int, e: Setting)
    requires MarketsReady(t)
    ensures RunReady(StartRun(t, openMarkets, session, e), openMarkets)
  {
    var r := StartRun(t, openMarkets, session, e);
    EmptyOfMembers(t.slots);
    forall j | 0 <= j < |r.empty| ensures Free(r, r.empty[j]) {
      assert r.empty[j] in r.empty;
      var i :| 0 <= i < |t.slots| && t.slots[i] == r.empty[j];
      assert r.slots[i] == r.empty[j];
    }
  }

  // A whole run keeps markets distinct, accepts at most one candidate per market and
  // never gives an empty slot away twice.
  lemma {:induction false} RunKeepsMarkets(t: Tables, openMarkets: set<string>, session: int,
                                           cs: seq<Candidate>, n: nat, e: Setting)
    requires MarketsReady(t) && n <= |cs|
    ensures RunReady(Visits(StartRun(t, openMarkets, session, e), cs, n, e), openMarkets)
  {
    hide RunReady;
    hide Visit;
    var start := StartRun(t, openMarkets, session, e);
    if n == 0 {
      StartIsReady(t, openMarkets, session, e);
    } else {
      RunKeepsMarkets(t, openMarkets, session, cs, n - 1, e);
      VisitReady(Visits(start, cs, n - 1, e), n - 1, cs[n - 1], e, openMarkets);
    }
  }

  // ----- the coupling

  // The entry a visit replaces names its candidate and has not been submitted.
  predicate ReplacesHeld(r: Run, c: Candidate, e: Setting) {
    Replaces(r, c, e) ==>
      var s := r.slots[SameMarket(r.slots, c, e.scores, e.config.minDelta).index];
      s.candidate != 0 && HeldOnly(r.tables.reservations, s.id)
  }

  predicate CoupledInvariant(t: Tables) {
    Invariant(t) && Coupled(t)
  }

  lemma EmptyEntryCouples(r: Run, k: nat, c: Candidate, amount: real, e: Setting, before: set<string>)
    requires RunReady(r, before) && r.empty != [] && CoupledInvariant(r.tables)
    requires SameMarket(r.slots, c, e.scores, e.config.minDelta).NoSameMarketSlot?
    requires c.market !in r.openMarkets
    ensures CoupledInvariant(AcceptEmpty(r, k, c, amount, e).tables)
  {
    hide ReserveEmpty;
    hide Coupled;
    var s := r.empty[0];
    assert Free(r, s);
    var i :| 0 <= i < |r.slots| && i < |r.tables.slots| && r.slots[i] == s && r.tables.slots[i] == s && s.status.Empty?;
    ReserveKeeps(r.tables, i, EntryOf(r.nextSession, c, amount, e), e.now);
  }

  lemma ReplacementCouples(r: Run, k: nat, c: Candidate, i: nat, amount: real, e: Setting)
    requires View(r) && CoupledInvariant(r.tables) && c.market != ""
    requires i < |r.slots| && r.slots[i].status.Reserved? && r.slots[i].market == c.market
    ensures CoupledInvariant(AcceptReplacement(r, k, c, r.slots[i], amount, e).tables)
       <==> r.slots[i].candidate != 0 && HeldOnly(r.tables.reservations, r.slots[i].id)
    ensures Coupled(AcceptReplacement(r, k, c, r.slots[i], amount, e).tables)
       <==> r.slots[i].candidate != 0 && HeldOnly(r.tables.reservations, r.slots[i].id)
  {
    hide ReplaceReserved;
    hide RowAfter;
    hide Renewed;
    assert r.tables.slots[i] == r.slots[i];
    var entry := EntryOf(r.nextSession, c, amount, e);
    ReplaceKeepsCouplingExactlyWhenHeld(r.tables, i, entry, e.now);
    if r.slots[i].candidate != 0 && HeldOnly(r.tables.reservations, r.slots[i].id) {
      ReplaceKeeps(r.tables, i, entry, e.now);
    }
    hide Coupled;
    hide Invariant;
  }

  // One visit keeps the tables coupled exactly when what it replaces is still held.
  lemma VisitCouplesExactlyWhenHeld(r: Run, k: nat, c: Candidate, e: Setting, before: set<string>)
    requires RunReady(r, before) && CoupledInvariant(r.tables) && c.market != ""
    ensures Coupled(Visit(r, k, c, e).tables) <==> ReplacesHeld(r, c, e)
    ensures ReplacesHeld(r, c, e) ==> CoupledInvariant(Visit(r, k, c, e).tables)
  {
    hide RunReady;
    hide ApprovedOrder;
    hide SizeReason;
    hide AcceptEmpty;
    hide AcceptReplacement;
    hide Coupled;
    hide Invariant;
    hide HeldOnly;
    assert View(r) by { ReadyHasView(r, before); }
    hide View;
    var v := SameMarket(r.slots, c, e.scores, e.config.minDelta);
    var check := EarlyCheck(r.empty, r.openMarkets, c, v, e.snapshot);
    var approved := ApprovedOrder(r.budget, c, v, Released(r.slots, v), e);
    if e.config.autoTrading && check.Clear? && approved >= e.config.minOrder {
      if v.Replaceable? {
        ReplacementCouples(r, k, c, v.index, approved, e);
      } else {
        EmptyEntryCouples(r, k, c, approved, e, before);
      }
    }
  }

  lemma ReadyHasView(r: Run, before: set<string>)
    requires RunReady(r, before)
    ensures View(r)
  {
  }

  // The tables have been coupled up to the n-th candidate, and each replacement up to
  // there was of an entry still held.
  predicate CoupledSoFar(start: Run, cs: seq<Candidate>, n: nat, e: Setting)
    requires n <= |cs|
  {
    forall i | 0 <= i <= n :: Coupled(Visits(start, cs, i, e).tables)
  }

  predicate HeldSoFar(start: Run, cs: seq<Candidate>, n: nat, e: Setting)
    requires n <= |cs|
  {
    forall i | 0 <= i < n && |Visits(start, cs, i, e).accepted| < e.config.maxNew ::
      ReplacesHeld(Visits(start, cs, i, e), cs[i], e)
  }

  lemma LastCoupling(start: Run, cs: seq<Candidate>, n: nat, e: Setting)
    requires 0 < n <= |cs|
    ensures CoupledSoFar(start, cs, n, e)
            <==> CoupledSoFar(start, cs, n - 1, e) && Coupled(Visits(start, cs, n, e).tables)
    ensures var r := Visits(start, cs, n - 1, e);
            HeldSoFar(start, cs, n, e)
            <==> HeldSoFar(start, cs, n - 1, e) && (|r.accepted| < e.config.maxNew ==> ReplacesHeld(r, cs[n - 1], e))
  {
    hide Visits;
    hide Coupled;
    hide ReplacesHeld;
  }

  // A run keeps the coupling throughout exactly when each entry it replaces names its
  // candidate and has not been submitted; the two sums then agree.
  lemma {:induction false} RunCouplesExactlyWhenHeld(t: Tables, openMarkets: set<string>, session: int,
                                                     cs: seq<Candidate>, n: nat, e: Setting)
    requires MarketsReady(t) && CoupledInvariant(t) && n <= |cs|
    requires forall k | 0 <= k < |cs| :: cs[k].market != ""
    ensures var start := StartRun(t, openMarkets, session, e);
            var after := Visits(start, cs, n, e).tables;
            && (CoupledSoFar(start, cs, n, e) <==> HeldSoFar(start, cs, n, e))
            && (HeldSoFar(start, cs, n, e) ==> CoupledInvariant(after)
                                               && LiveAmount(after.reservations) == ReservedKrw(after.slots))
  {
    hide Visit;
    hide Coupled;
    hide Invariant;
    hide CoupledInvariant;
    hide ReplacesHeld;
    hide CoupledSoFar;
    hide HeldSoFar;
    hide RunReady;
    hide Visits;
    hide LiveAmount;
    hide ReservedKrw;
    var start := StartRun(t, openMarkets, session, e);
    NothingCoupledYet(start, cs, e);
    if n > 0 {
      RunCouplesExactlyWhenHeld(t, openMarkets, session, cs, n - 1, e);
      LastCoupling(start, cs, n, e);
      VisitsNext(start, cs, n, e);
      RunKeepsMarkets(t, openMarkets, session, cs, n - 1, e);
      var r := Visits(start, cs, n - 1, e);
      if HeldSoFar(start, cs, n - 1, e) && |r.accepted| < e.config.maxNew {
        VisitCouplesExactlyWhenHeld(r, n - 1, cs[n - 1], e, openMarkets);
      }
    }
    if HeldSoFar(start, cs, n, e) {
      CoupledTablesAgree(Visits(start, cs, n, e).tables);
    }
  }

  lemma NothingCoupledYet(start: Run, cs: seq<Candidate>, e: Setting)
    requires CoupledInvariant(start.tables)
    ensures Visits(start, cs, 0, e) == start && CoupledSoFar(start, cs, 0, e) && HeldSoFar(start, cs, 0, e)
  {
    hide Coupled;
    hide Invariant;
    hide ReplacesHeld;
  }

  lemma CoupledTablesAgree(t: Tables)
    requires CoupledInvariant(t)
    ensures Coupled(t) && LiveAmount(t.reservations) == ReservedKrw(t.slots)
  {
    CoupledInvariantSums(t);
  }

  // ----- no submitted entry at the start

  predicate AllHeld(t: Tables) {
    && (forall j | 0 <= j < |t.reservations| :: !t.reservations[j].status.OrderSubmitted?)
    && forall i | 0 <= i < |t.slots| && t.slots[i].status.Reserved? :: t.slots[i].candidate != 0
  }

  lemma VisitKeepsHeld(r: Run, k: nat, c: Candidate, e: Setting, before: set<string>)
    requires RunReady(r, before) && AllHeld(r.tables) && c.id != 0
    ensures ReplacesHeld(r, c, e) && AllHeld(Visit(r, k, c, e).tables)
  {
    hide ApprovedOrder;
    hide SizeReason;
    hide EarlyCheck;
    hide SameMarket;
    hide Renewed;
    hide RowAfter;
    hide Selects;
    hide EmptyView;
    hide OwnMarkets;
    hide OwnSlots;
  }

  // From tables without submitted entries a run keeps the coupling in any case.
  lemma {:induction false} RunKeepsTables(t: Tables, openMarkets: set<string>, session: int,
                                          cs: seq<Candidate>, n: nat, e: Setting)
    requires MarketsReady(t) && CoupledInvariant(t) && AllHeld(t) && n <= |cs|
    requires forall k | 0 <= k < |cs| :: cs[k].id != 0 && cs[k].market != ""
    ensures var start := StartRun(t, openMarkets, session, e);
            var after := Visits(start, cs, n, e).tables;
            && HeldSoFar(start, cs, n, e) && AllHeld(after) && CoupledInvariant(after)
            && LiveAmount(after.reservations) == ReservedKrw(after.slots)
  {
    hide Visit;
    hide CoupledInvariant;
    hide AllHeld;
    hide ReplacesHeld;
    hide RunReady;
    hide HeldSoFar;
    hide Visits;
    hide LiveAmount;
    hide ReservedKrw;
    var start := StartRun(t, openMarkets, session, e);
    NothingCoupledYet(start, cs, e);
    if n > 0 {
      RunKeepsTables(t, openMarkets, session, cs, n - 1, e);
      LastCoupling(start, cs, n, e);
      VisitsNext(start, cs, n, e);
      RunKeepsMarkets(t, openMarkets, session, cs, n - 1, e);
      VisitKeepsHeld(Visits(start, cs, n - 1, e), n - 1, cs[n - 1], e, openMarkets);
    }
    RunCouplesExactlyWhenHeld(t, openMarkets, session, cs, n, e);
  }
}
