/** Which candidates an allocator run accepts, why it blocks the others, what it approves,
    and what an acceptance changes, in terms of the candidate, the state in front of it and
    the settings. */
module AllocatorDecisions {
  import opened Basics
  import opened SlotTables
  import opened SlotCoupling
  import opened CapitalAllocator
  import opened AllocatorLaws

  // ----- the slot of the candidate's market

  predicate FirstOf(slots: seq<Slot>, market: string, f: int) {
    0 <= f < |slots| && slots[f].market == market && forall k | 0 <= k < f :: slots[k].market != market
  }

  predicate NoneOf(slots: seq<Slot>, market: string) {
    forall k | 0 <= k < |slots| :: slots[k].market != market
  }

  // The slot is reserved and has no position yet.
  predicate Waiting(s: Slot) { s.status == Reserved && s.position == 0 }

  // The reserved candidate is known and the new one is not better by the required margin.
  predicate TooClose(s: Slot, c: Candidate, e: Setting) {
    s.candidate != 0 && s.candidate in e.scores && c.score - e.scores[s.candidate] < e.config.minDelta
  }

  predicate Weaker(s: Slot, c: Candidate, e: Setting) {
    Waiting(s) && s.candidate != c.id && !TooClose(s, c, e)
  }

  // The first slot of the market stands in the way.
  predicate Declines(slots: seq<Slot>, c: Candidate, e: Setting, f: int) {
    FirstOf(slots, c.market, f) && !Weaker(slots[f], c, e)
  }

  function RefusalOf(s: Slot, c: Candidate): Reason {
    if !Waiting(s) then DuplicateMarket else if s.candidate == c.id then AlreadyReserved else ScoreDeltaTooSmall
  }

  lemma {:induction false} VerdictReads(slots: seq<Slot>, c: Candidate, e: Setting)
    ensures var v := SameMarket(slots, c, e.scores, e.config.minDelta);
            && (v.NoSameMarketSlot? <==> NoneOf(slots, c.market))
            && (v.Replaceable? ==> FirstOf(slots, c.market, v.index) && Weaker(slots[v.index], c, e))
            && (v.Refused? ==> exists f :: Declines(slots, c, e, f) && v.reason == RefusalOf(slots[f], c))
  {
    if slots != [] && slots[0].market != c.market {
      VerdictReads(slots[1..], c, e);
      var v := SameMarket(slots[1..], c, e.scores, e.config.minDelta);
      if v.Refused? {
        var f :| Declines(slots[1..], c, e, f) && v.reason == RefusalOf(slots[1..][f], c);
        assert Declines(slots, c, e, f + 1) && slots[f + 1] == slots[1..][f];
      }
    } else if slots != [] {
      assert FirstOf(slots, c.market, 0);
      assert Weaker(slots[0], c, e) || Declines(slots, c, e, 0);
    }
  }

  lemma OneFirst(slots: seq<Slot>, market: string, f: int, g: int)
    requires FirstOf(slots, market, f) && FirstOf(slots, market, g)
    ensures f == g
  {
  }

  // ----- the checks

  predicate Acceptable(c: Candidate, openMarkets: set<string>) {
    c.market !in openMarkets && !c.hasPosition && !c.unresolvedOrder && c.liveAllowed && c.edgeCoversCost
  }

  predicate Trusted(s: Snapshot) { !s.failed && !s.balanceMismatch && !s.orderMismatch }

  // The candidate replaces the entry of slot f.
  predicate TakesOver(r: Run, c: Candidate, e: Setting, f: int) {
    FirstOf(r.slots, c.market, f) && Weaker(r.slots[f], c, e)
  }

  ghost predicate HasPlace(r: Run, c: Candidate, e: Setting) {
    (exists f :: TakesOver(r, c, e, f)) || (NoneOf(r.slots, c.market) && r.empty != [])
  }

  // ----- the amount

  // What the snapshot leaves of the exposure cap, and of the cash above the reserve.
  function ExposureLeft(s: Snapshot): real {
    var left := s.maxTotal - s.openValue - s.pendingReserved - s.pendingExchange;
    if left > 0.0 then left else 0.0
  }

  function CashLeft(s: Snapshot): real {
    var left := (if s.available.Krw? then s.available.amount else 0.0) - s.cashReserve;
    if left > 0.0 then left else 0.0
  }

  // The share of the single-position cap that the rank earns, a rank above 100 counting as
  // 100, and at least the minimum order.
  function Earned(c: Candidate, config: Config): real {
    var share := config.maxSingle * (if c.rank > 100.0 then 100.0 else c.rank) / 100.0;
    if share > config.minOrder then share else config.minOrder
  }

  // The limits on an order: of a plain entry the budget left, of a replacement the cap and
  // the cash of the snapshot.
  function Limits(r: Run, c: Candidate, e: Setting): seq<real> {
    var own := [Earned(c, e.config), e.config.maxSingle, e.config.maxOrder];
    var v := SameMarket(r.slots, c, e.scores, e.config.minDelta);
    if v.Replaceable? && v.index < |r.slots| then
      var room := ExposureLeft(e.snapshot) + r.slots[v.index].reserved;
      [if room > 0.0 then room else 0.0, CashLeft(e.snapshot)] + own
    else [r.budget] + own
  }

  predicate Least(x: real, limits: seq<real>) {
    x in limits && forall y | y in limits :: x <= y
  }

  lemma LimitsRead(r: Run, c: Candidate, e: Setting, f: int)
    ensures TakesOver(r, c, e, f) ==>
              var room := ExposureLeft(e.snapshot) + r.slots[f].reserved;
              Limits(r, c, e) == [if room > 0.0 then room else 0.0, CashLeft(e.snapshot),
                                  Earned(c, e.config), e.config.maxSingle, e.config.maxOrder]
    ensures NoneOf(r.slots, c.market) ==>
              Limits(r, c, e) == [r.budget, Earned(c, e.config), e.config.maxSingle, e.config.maxOrder]
  {
    VerdictReads(r.slots, c, e);
    if TakesOver(r, c, e, f) {
      var v := SameMarket(r.slots, c, e.scores, e.config.minDelta);
      hide SameMarket;
      if v.Refused? {
        var g :| Declines(r.slots, c, e, g);
        OneFirst(r.slots, c.market, f, g);
      } else if v.Replaceable? {
        OneFirst(r.slots, c.market, f, v.index);
      }
    }
  }

  lemma TermsRead(c: Candidate, e: Setting)
    ensures Remaining(e.snapshot) == ExposureLeft(e.snapshot) && CashAfterReserve(e.snapshot) == CashLeft(e.snapshot)
    ensures DesiredOrder(c, e.config) == Min(e.config.maxSingle, Earned(c, e.config))
  {
  }

  // The approved amount is the least of the limits.
  lemma ApprovedIsLeast(r: Run, c: Candidate, e: Setting)
    ensures var v := SameMarket(r.slots, c, e.scores, e.config.minDelta);
            Least(ApprovedOrder(r.budget, c, v, Released(r.slots, v), e), Limits(r, c, e))
  {
    TermsRead(c, e);
    hide SameMarket;
    hide Remaining;
    hide CashAfterReserve;
    hide DesiredOrder;
    hide ExposureLeft;
    hide CashLeft;
    hide Earned;
    var v := SameMarket(r.slots, c, e.scores, e.config.minDelta);
    var x, limits := ApprovedOrder(r.budget, c, v, Released(r.slots, v), e), Limits(r, c, e);
    assert limits[|limits| - 1] == e.config.maxOrder && limits[|limits| - 2] == e.config.maxSingle
           && limits[|limits| - 3] == Earned(c, e.config);
    assert |limits| == 4 || |limits| == 5;
    assert limits[0] in limits && limits[1] in limits;
    assert forall y | y in limits :: x <= y by {
      forall i | 0 <= i < |limits| ensures x <= limits[i] {
      }
    }
    assert x == limits[0] || x == limits[1] || x == Earned(c, e.config) || x == e.config.maxSingle || x == e.config.maxOrder;
  }

  lemma LeastIsUnique(x: real, y: real, limits: seq<real>)
    requires Least(x, limits) && Least(y, limits)
    ensures x == y
  {
  }

  // ----- one visit

  ghost predicate Passes(r: Run, c: Candidate, e: Setting) {
    e.config.autoTrading && HasPlace(r, c, e) && Acceptable(c, r.openMarkets) && Trusted(e.snapshot)
  }

  // The visit accepts the candidate for the amount.
  ghost predicate Accepts(r: Run, c: Candidate, e: Setting, amount: real) {
    Passes(r, c, e) && Least(amount, Limits(r, c, e)) && amount >= e.config.minOrder
  }

  // The visit blocks the candidate for the reason.
  ghost predicate Blocks(r: Run, c: Candidate, e: Setting, reason: Reason, amount: real)
  {
    var placed := e.config.autoTrading && HasPlace(r, c, e);
    var free := placed && c.market !in r.openMarkets && !c.hasPosition;
    var small := Passes(r, c, e) && Least(amount, Limits(r, c, e)) && amount < e.config.minOrder;
    var cash := e.snapshot.available;
    match reason
    case PolicyDisabled => !e.config.autoTrading
    case NoEmptySlot => e.config.autoTrading && NoneOf(r.slots, c.market) && r.empty == []
    case DuplicateMarket =>
      || (e.config.autoTrading && exists f :: Declines(r.slots, c, e, f) && !Waiting(r.slots[f]))
      || (placed && (c.market in r.openMarkets || c.hasPosition))
    case AlreadyReserved =>
      e.config.autoTrading && exists f :: Declines(r.slots, c, e, f) && Waiting(r.slots[f]) && r.slots[f].candidate == c.id
    case ScoreDeltaTooSmall =>
      e.config.autoTrading && exists f :: Declines(r.slots, c, e, f) && Waiting(r.slots[f]) && r.slots[f].candidate != c.id
    case UnresolvedOrder => free && c.unresolvedOrder
    case NotLiveAllowed => free && !c.unresolvedOrder && !c.liveAllowed
    case EdgeBelowCost => free && !c.unresolvedOrder && c.liveAllowed && !c.edgeCoversCost
    case SnapshotFailed => placed && Acceptable(c, r.openMarkets) && e.snapshot.failed
    case BalanceMismatch => placed && Acceptable(c, r.openMarkets) && !e.snapshot.failed && e.snapshot.balanceMismatch
    case OrderMismatch =>
      && placed && Acceptable(c, r.openMarkets)
      && !e.snapshot.failed && !e.snapshot.balanceMismatch && e.snapshot.orderMismatch
    case BalanceUnavailable => small && cash.Unavailable?
    case InsufficientBalance => small && cash.Krw? && cash.amount < e.config.minOrder
    case ExposureTooSmall => small && cash.Krw? && cash.amount >= e.config.minOrder && RoomFor(r, c, e) < e.config.minOrder
    case CapitalTooSmall => small && cash.Krw? && cash.amount >= e.config.minOrder && RoomFor(r, c, e) >= e.config.minOrder
  }

  // The exposure a candidate could use, with what its own slot would release.
  function RoomFor(r: Run, c: Candidate, e: Setting): real {
    var v := SameMarket(r.slots, c, e.scores, e.config.minDelta);
    ExposureLeft(e.snapshot) + if v.Replaceable? && v.index < |r.slots| then r.slots[v.index].reserved else 0.0
  }

  lemma RoomReads(r: Run, c: Candidate, e: Setting, f: int)
    ensures TakesOver(r, c, e, f) ==> RoomFor(r, c, e) == ExposureLeft(e.snapshot) + r.slots[f].reserved
    ensures NoneOf(r.slots, c.market) ==> RoomFor(r, c, e) == ExposureLeft(e.snapshot)
  {
    VerdictReads(r.slots, c, e);
    if TakesOver(r, c, e, f) {
      var v := SameMarket(r.slots, c, e.scores, e.config.minDelta);
      hide SameMarket;
      if v.Refused? {
        var g :| Declines(r.slots, c, e, g);
        OneFirst(r.slots, c.market, f, g);
      } else if v.Replaceable? {
        OneFirst(r.slots, c.market, f, v.index);
      }
    }
  }

  lemma PlaceReads(r: Run, c: Candidate, e: Setting)
    ensures var v := SameMarket(r.slots, c, e.scores, e.config.minDelta);
            && (HasPlace(r, c, e) <==> v.Replaceable? || (v.NoSameMarketSlot? && r.empty != []))
            && (v.Replaceable? ==> TakesOver(r, c, e, v.index))
            && (v.NoSameMarketSlot? <==> NoneOf(r.slots, c.market))
            && (v.Refused? <==> exists f :: Declines(r.slots, c, e, f))
            && (v.Refused? ==> forall f | Declines(r.slots, c, e, f) :: v.reason == RefusalOf(r.slots[f], c))
  {
    VerdictReads(r.slots, c, e);
    var v := SameMarket(r.slots, c, e.scores, e.config.minDelta);
    hide SameMarket;
    hide Weaker;
    hide Waiting;
    assert v.Replaceable? ==> TakesOver(r, c, e, v.index);
    forall f | FirstOf(r.slots, c.market, f)
      ensures v.Replaceable? ==> f == v.index
      ensures !v.NoSameMarketSlot?
    {
      if v.Replaceable? {
        OneFirst(r.slots, c.market, f, v.index);
      }
    }
    if v.Refused? {
      var g :| Declines(r.slots, c, e, g) && v.reason == RefusalOf(r.slots[g], c);
      forall f | FirstOf(r.slots, c.market, f) ensures f == g {
        OneFirst(r.slots, c.market, f, g);
      }
    }
  }

  // What an acceptance changes.
  ghost predicate Entered(after: Run, r: Run, k: nat, c: Candidate, e: Setting, amount: real) {
    var entry := Entry(c.market, c.id, r.nextSession, amount, At(e.now + e.config.ttlSeconds));
    && after.blocked == r.blocked && after.openMarkets == r.openMarkets + {c.market} && after.nextSession == r.nextSession + 1
    && (if NoneOf(r.slots, c.market) then
          && r.empty != []
          && after.accepted == r.accepted + [Acceptance(k, c.market, r.empty[0].id, amount, false, 0.0, r.budget)]
          && after.tables == ReserveEmpty(r.tables, r.empty[0].id, entry, e.now)
          && after.empty == r.empty[1..] && after.slots == r.slots
          && after.budget == (if r.budget > amount then r.budget - amount else 0.0)
        else
          exists f :: TakesOver(r, c, e, f)
            && after.accepted == r.accepted
                 + [Acceptance(k, c.market, r.slots[f].id, amount, true, r.slots[f].reserved, r.budget)]
            && after.tables == ReplaceReserved(r.tables, r.slots[f], entry, e.now) && after.empty == r.empty
            && |after.slots| == |r.slots|
            && (forall i | 0 <= i < |r.slots| && r.slots[i].id != r.slots[f].id :: after.slots[i] == r.slots[i])
            && after.budget == (if r.budget + r.slots[f].reserved > amount then r.budget + r.slots[f].reserved - amount else 0.0))
  }

  // Whom a visit accepts and for how much, and otherwise why it blocks: each outcome exactly
  // under its own condition.
  lemma VisitDecidesAsStated(r: Run, k: nat, c: Candidate, e: Setting)
    ensures var after := Visit(r, k, c, e);
            && (forall amount | Accepts(r, c, e, amount) :: Entered(after, r, k, c, e, amount))
            && ((forall amount :: !Accepts(r, c, e, amount)) ==>
                  && after == r.(blocked := after.blocked) && |after.blocked| == |r.blocked| + 1
                  && after.blocked[..|r.blocked|] == r.blocked && after.blocked[|r.blocked|].candidate == k
                  && (exists amount :: Blocks(r, c, e, after.blocked[|r.blocked|].reason, amount))
                  && forall reason, amount | Blocks(r, c, e, reason, amount) :: reason == after.blocked[|r.blocked|].reason)
  {
    var v := SameMarket(r.slots, c, e.scores, e.config.minDelta);
    var x := ApprovedOrder(r.budget, c, v, Released(r.slots, v), e);
    ApprovedIsLeast(r, c, e);
    forall y | Least(y, Limits(r, c, e)) ensures y == x {
      LeastIsUnique(x, y, Limits(r, c, e));
    }
    hide Least;
    hide Limits;
    VisitOutcome(r, k, c, e, x);
    hide Visit;
    hide Entered;
    hide Passes;
    if Accepts(r, c, e, x) {
      assert forall amount | Accepts(r, c, e, amount) :: amount == x;
    } else {
      var reason := ReasonOf(r, c, e, x);
      ReasonsExclude(r, c, e, x);
      assert Blocks(r, c, e, reason, x);
      forall other, amount | Blocks(r, c, e, other, amount) ensures other == reason {
        SmallAmounts(r, c, e, other, amount, x);
      }
    }
  }

  // Only the size reasons look at the amount.
  lemma SmallAmounts(r: Run, c: Candidate, e: Setting, reason: Reason, amount: real, x: real)
    requires Blocks(r, c, e, reason, amount)
    requires forall y | Least(y, Limits(r, c, e)) :: y == x
    requires forall other | Blocks(r, c, e, other, x) :: other == ReasonOf(r, c, e, x)
    ensures reason == ReasonOf(r, c, e, x)
  {
    hide Least;
    hide Limits;
    hide HasPlace;
    hide Acceptable;
    hide ReasonOf;
    assert Blocks(r, c, e, reason, x);
  }

  // The reason the visit gives when it blocks for an order of x.
  function ReasonOf(r: Run, c: Candidate, e: Setting, x: real): Reason {
    var v := SameMarket(r.slots, c, e.scores, e.config.minDelta);
    var check := EarlyCheck(r.empty, r.openMarkets, c, v, e.snapshot);
    if !e.config.autoTrading then PolicyDisabled
    else if check.Stop? then check.reason else SizeReason(v, Released(r.slots, v), e)
  }

  lemma ClearReads(r: Run, c: Candidate, e: Setting)
    ensures var v := SameMarket(r.slots, c, e.scores, e.config.minDelta);
            Passes(r, c, e) <==> e.config.autoTrading && EarlyCheck(r.empty, r.openMarkets, c, v, e.snapshot).Clear?
  {
    PlaceReads(r, c, e);
    hide SameMarket;
    hide HasPlace;
  }

  lemma VisitOutcome(r: Run, k: nat, c: Candidate, e: Setting, x: real)
    requires var v := SameMarket(r.slots, c, e.scores, e.config.minDelta);
             x == ApprovedOrder(r.budget, c, v, Released(r.slots, v), e) && Least(x, Limits(r, c, e))
    ensures Accepts(r, c, e, x) ==> Entered(Visit(r, k, c, e), r, k, c, e, x)
    ensures !Accepts(r, c, e, x) ==> Visit(r, k, c, e) == r.(blocked := r.blocked + [Block(k, ReasonOf(r, c, e, x))])
  {
    ClearReads(r, c, e);
    PlaceReads(r, c, e);
    var v := SameMarket(r.slots, c, e.scores, e.config.minDelta);
    hide SameMarket;
    hide EarlyCheck;
    hide ApprovedOrder;
    hide SizeReason;
    hide Least;
    hide Limits;
    if Accepts(r, c, e, x) {
      if v.Replaceable? {
        EnteredByReplacing(r, k, c, e, x, v.index);
      }
    }
  }

  lemma EnteredByReplacing(r: Run, k: nat, c: Candidate, e: Setting, x: real, f: nat)
    requires TakesOver(r, c, e, f)
    ensures Entered(AcceptReplacement(r, k, c, r.slots[f], x, e), r, k, c, e, x)
  {
    hide ReplaceReserved;
    hide Weaker;
    var after := AcceptReplacement(r, k, c, r.slots[f], x, e);
    hide RowAfter;
    assert !NoneOf(r.slots, c.market);
  }

  // At most one reason applies.
  lemma ReasonsExclude(r: Run, c: Candidate, e: Setting, x: real)
    requires Least(x, Limits(r, c, e)) && !Accepts(r, c, e, x)
    ensures forall reason :: Blocks(r, c, e, reason, x) <==> reason == ReasonOf(r, c, e, x)
  {
    PlaceReads(r, c, e);
    TermsRead(c, e);
    hide Least;
    hide Limits;
    hide HasPlace;
    hide SameMarket;
    hide Remaining;
    hide ExposureLeft;
    hide Waiting;
    hide Declines;
  }

  // ----- a run

  // The budget a run starts with.
  lemma StartReads(t: Tables, openMarkets: set<string>, session: int, e: Setting)
    ensures var r, s := StartRun(t, openMarkets, session, e), e.snapshot;
            && r.tables == t && r.slots == t.slots && r.openMarkets == openMarkets && r.nextSession == session
            && r.accepted == [] && r.blocked == []
            && (s.available.Unavailable? ==> r.budget == 0.0)
            && (s.available.Krw? ==>
                  var cash := s.available.amount - s.cashReserve;
                  r.budget == if cash <= 0.0 then 0.0 else if cash < ExposureLeft(s) then cash else ExposureLeft(s))
  {
  }

  // Its free slots are the EMPTY ones in their order.
  lemma {:induction false} EmptySlotsInOrder(front: seq<Slot>, s: Slot, rest: seq<Slot>)
    ensures EmptyOf(front + [s] + rest) == EmptyOf(front) + (if s.status == Empty then [s] else []) + EmptyOf(rest)
    ensures EmptyOf([]) == []
  {
    if front == [] {
      assert (front + [s] + rest)[0] == s && (front + [s] + rest)[1..] == rest;
    } else {
      assert (front + [s] + rest)[1..] == front[1..] + [s] + rest;
      EmptySlotsInOrder(front[1..], s, rest);
    }
  }

  // The state in front of a candidate accepts it for the amount it got.
  ghost predicate RightlyAccepted(a: Acceptance, start: Run, cs: seq<Candidate>, n: nat, e: Setting)
    requires n <= |cs|
  {
    && a.candidate < n
    && var r, c := Visits(start, cs, a.candidate, e), cs[a.candidate];
       && Accepts(r, c, e, a.amount) && a.market == c.market && a.budgetBefore == r.budget
       && |r.accepted| < e.config.maxNew
  }

  ghost predicate RightlyBlocked(b: Block, start: Run, cs: seq<Candidate>, n: nat, e: Setting)
    requires n <= |cs|
  {
    && b.candidate < n
    && (exists amount :: Blocks(Visits(start, cs, b.candidate, e), cs[b.candidate], e, b.reason, amount))
    && |Visits(start, cs, b.candidate, e).accepted| < e.config.maxNew
  }

  lemma EnteredReads(after: Run, r: Run, k: nat, c: Candidate, e: Setting, amount: real)
    requires Entered(after, r, k, c, e, amount)
    ensures after.blocked == r.blocked
    ensures exists a :: after.accepted == r.accepted + [a] && a.candidate == k && a.market == c.market && a.amount == amount
                        && a.budgetBefore == r.budget
  {
    if NoneOf(r.slots, c.market) {
      var a := Acceptance(k, c.market, r.empty[0].id, amount, false, 0.0, r.budget);
      assert after.accepted == r.accepted + [a];
    } else {
      var f :| TakesOver(r, c, e, f)
               && after.accepted == r.accepted
                    + [Acceptance(k, c.market, r.slots[f].id, amount, true, r.slots[f].reserved, r.budget)];
      var a := Acceptance(k, c.market, r.slots[f].id, amount, true, r.slots[f].reserved, r.budget);
      assert after.accepted == r.accepted + [a];
    }
  }

  // Every acceptance and every block of a run follows from the state in front of its candidate.
  lemma {:induction false} RunDecidesAsStated(start: Run, cs: seq<Candidate>, n: nat, e: Setting)
    requires n <= |cs| && start.accepted == [] && start.blocked == []
    ensures var r := Visits(start, cs, n, e);
            && (forall i | 0 <= i < |r.accepted| :: RightlyAccepted(r.accepted[i], start, cs, n, e))
            && (forall i | 0 <= i < |r.blocked| :: RightlyBlocked(r.blocked[i], start, cs, n, e))
  {
    hide Visits;
    hide Visit;
    hide Accepts;
    hide Blocks;
    hide Entered;
    if n == 0 {
      NoVisits(start, cs, e);
    } else {
      RunDecidesAsStated(start, cs, n - 1, e);
      VisitsNext(start, cs, n, e);
      var r, after, c := Visits(start, cs, n - 1, e), Visits(start, cs, n, e), cs[n - 1];
      if |r.accepted| < e.config.maxNew {
        VisitDecidesAsStated(r, n - 1, c, e);
        if x :| Accepts(r, c, e, x) {
          EnteredReads(after, r, n - 1, c, e, x);
        } else {
          assert after.blocked == r.blocked + [after.blocked[|r.blocked|]];
        }
      }
    }
  }

  // Nobody is accepted with a position, an unresolved order, no live permission, an edge below
  // its cost or in an open market, nor on an untrusted snapshot or with trading switched off.
  lemma AcceptedWereAcceptable(start: Run, cs: seq<Candidate>, n: nat, e: Setting, i: nat)
    requires n <= |cs| && start.accepted == [] && start.blocked == [] && i < |Visits(start, cs, n, e).accepted|
    ensures var a := Visits(start, cs, n, e).accepted[i];
            && a.candidate < n
            && var c := cs[a.candidate];
               && !c.hasPosition && !c.unresolvedOrder && c.liveAllowed && c.edgeCoversCost && a.market == c.market
               && !e.snapshot.failed && !e.snapshot.balanceMismatch && !e.snapshot.orderMismatch && e.config.autoTrading
               && e.config.minOrder <= a.amount
  {
    RunDecidesAsStated(start, cs, n, e);
    hide Visits;
    hide HasPlace;
    hide Limits;
  }
}
