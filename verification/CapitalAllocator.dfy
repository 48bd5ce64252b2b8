/** One run of the capital allocator: ranked candidates spend a snapshot budget on
    empty slots, or replace a weaker entry reserved for the same market. */
module CapitalAllocator {
  import opened Basics
  import opened SlotTables
  import opened SlotCoupling

  // ----- the capital snapshot

  datatype Balance = Unavailable | Krw(amount: real)

  datatype Snapshot = Snapshot(maxTotal: real, openValue: real, pendingReserved: real, pendingExchange: real,
                               available: Balance, cashReserve: real,
                               failed: bool, balanceMismatch: bool, orderMismatch: bool)

  function Remaining(s: Snapshot): real {
    Max(s.maxTotal - s.openValue - s.pendingReserved - s.pendingExchange, 0.0)
  }

  function Budget(s: Snapshot): real {
    match s.available
    case Unavailable => 0.0
    case Krw(amount) => Max(Min(Remaining(s), amount - s.cashReserve), 0.0)
  }

  function AvailableOrZero(s: Snapshot): real {
    match s.available case Unavailable => 0.0 case Krw(amount) => amount
  }

  function CashAfterReserve(s: Snapshot): real { Max(AvailableOrZero(s) - s.cashReserve, 0.0) }

  // ----- candidates and configuration

  // `rank` is the allocation score; the flags are the outcome of the checks that read
  // other tables or the exchange.
  datatype Candidate = Candidate(id: int, market: string, score: real, rank: real, hasPosition: bool,
                                 unresolvedOrder: bool, liveAllowed: bool, edgeCoversCost: bool)

  datatype Config = Config(maxNew: nat, maxSingle: real, minOrder: real, maxOrder: real,
                           ttlSeconds: int, minDelta: real, autoTrading: bool)

  datatype Reason = PolicyDisabled | DuplicateMarket | AlreadyReserved | ScoreDeltaTooSmall | NoEmptySlot
                  | UnresolvedOrder | NotLiveAllowed | EdgeBelowCost
                  | SnapshotFailed | BalanceMismatch | OrderMismatch
                  | BalanceUnavailable | InsufficientBalance | ExposureTooSmall | CapitalTooSmall

  datatype Verdict = Replaceable(index: nat) | Refused(reason: Reason) | NoSameMarketSlot

  // The verdict on a list after n other slots in front of it.
  function Shifted(v: Verdict, n: nat): Verdict {
    if v.Replaceable? then Replaceable(v.index + n) else v
  }

  // The first slot of the same market decides.
  function SameMarket(slots: seq<Slot>, c: Candidate, scores: map<int, real>, minDelta: real): (v: Verdict)
    ensures v.Replaceable? ==> v.index < |slots| && slots[v.index].status.Reserved?
                               && slots[v.index].position == 0 && slots[v.index].market == c.market
    ensures v.NoSameMarketSlot? <==> forall i | 0 <= i < |slots| :: slots[i].market != c.market
  {
    if slots == [] then NoSameMarketSlot
    else
      var s := slots[0];
      if s.market != c.market then
        Shifted(SameMarket(slots[1..], c, scores, minDelta), 1)
      else if !s.status.Reserved? || s.position != 0 then Refused(DuplicateMarket)
      else if s.candidate == c.id then Refused(AlreadyReserved)
      else if s.candidate in scores && s.candidate != 0 && c.score - scores[s.candidate] < minDelta
        then Refused(ScoreDeltaTooSmall)
      else Replaceable(0)
  }

  datatype Check = Clear | Stop(reason: Reason)

  function CandidateCheck(c: Candidate, openMarkets: set<string>): Check {
    if c.market in openMarkets || c.hasPosition then Stop(DuplicateMarket)
    else if c.unresolvedOrder then Stop(UnresolvedOrder)
    else if !c.liveAllowed then Stop(NotLiveAllowed)
    else if !c.edgeCoversCost then Stop(EdgeBelowCost)
    else Clear
  }

  // ----- the run

  datatype Acceptance = Acceptance(candidate: nat, market: string, slot: int, amount: real, replaced: bool,
                                   released: real, budgetBefore: real)

  datatype Block = Block(candidate: nat, reason: Reason)

  // `slots` is the snapshot's list, `empty` the slots of it not yet given away.
  datatype Run = Run(tables: Tables, slots: seq<Slot>, empty: seq<Slot>, openMarkets: set<string>,
                     budget: real, nextSession: int, accepted: seq<Acceptance>, blocked: seq<Block>)

  datatype Setting = Setting(snapshot: Snapshot, config: Config, scores: map<int, real>, now: int)

  function DesiredOrder(c: Candidate, config: Config): real {
    Min(config.maxSingle, Max(config.minOrder, config.maxSingle * Min(c.rank, 100.0) / 100.0))
  }

  function BudgetFor(budget: real, v: Verdict, released: real, snap: Snapshot): real {
    if v.Replaceable? then Min(Max(Remaining(snap) + released, 0.0), CashAfterReserve(snap)) else budget
  }

  function ApprovedOrder(budget: real, c: Candidate, v: Verdict, released: real, e: Setting): real {
    Min(Min(Min(BudgetFor(budget, v, released, e.snapshot), DesiredOrder(c, e.config)), e.config.maxSingle), e.config.maxOrder)
  }

  function Released(slots: seq<Slot>, v: Verdict): real {
    if v.Replaceable? && v.index < |slots| then slots[v.index].reserved else 0.0
  }

  function EarlyCheck(empty: seq<Slot>, openMarkets: set<string>, c: Candidate, v: Verdict, snap: Snapshot): Check {
    var first := if v.Refused? then Stop(v.reason)
                 else if v.NoSameMarketSlot? && empty == [] then Stop(NoEmptySlot)
                 else CandidateCheck(c, openMarkets);
    if first.Stop? then first
    else if snap.failed then Stop(SnapshotFailed)
    else if snap.balanceMismatch then Stop(BalanceMismatch)
    else if snap.orderMismatch then Stop(OrderMismatch)
    else Clear
  }

  function SizeReason(v: Verdict, released: real, e: Setting): Reason {
    if e.snapshot.available.Unavailable? then BalanceUnavailable
    else if e.snapshot.available.amount < e.config.minOrder then InsufficientBalance
    else if (if v.Replaceable? then Remaining(e.snapshot) + released else Remaining(e.snapshot)) < e.config.minOrder
      then ExposureTooSmall
    else CapitalTooSmall
  }

  function EntryOf(session: int, c: Candidate, amount: real, e: Setting): Entry {
    Entry(c.market, c.id, session, amount, At(e.now + e.config.ttlSeconds))
  }

  function RowAfter(t: Tables, s: Slot): Slot {
    var i := IndexOf(t.slots, s.id);
    if i >= 0 then t.slots[i] else s
  }

  function Renewed(slots: seq<Slot>, row: Slot): seq<Slot> {
    seq(|slots|, i requires 0 <= i < |slots| => if slots[i].id == row.id then row else slots[i])
  }

  function AcceptReplacement(r: Run, k: nat, c: Candidate, s: Slot, amount: real, e: Setting): Run {
    var tables := ReplaceReserved(r.tables, s, EntryOf(r.nextSession, c, amount, e), e.now);
    var row := RowAfter(tables, s);
    r.(tables := tables, slots := Renewed(r.slots, row), openMarkets := r.openMarkets + {c.market},
       budget := Max(r.budget + s.reserved - amount, 0.0), nextSession := r.nextSession + 1,
       accepted := r.accepted + [Acceptance(k, c.market, s.id, amount, true, s.reserved, r.budget)])
  }

  function AcceptEmpty(r: Run, k: nat, c: Candidate, amount: real, e: Setting): Run
    requires r.empty != []
  {
    var s := r.empty[0];
    r.(tables := ReserveEmpty(r.tables, s.id, EntryOf(r.nextSession, c, amount, e), e.now), empty := r.empty[1..],
       openMarkets := r.openMarkets + {c.market}, budget := Max(r.budget - amount, 0.0),
       nextSession := r.nextSession + 1,
       accepted := r.accepted + [Acceptance(k, c.market, s.id, amount, false, 0.0, r.budget)])
  }

  // The k-th candidate of the ranking.
  function Visit(r: Run, k: nat, c: Candidate, e: Setting): Run {
    if !e.config.autoTrading then r.(blocked := r.blocked + [Block(k, PolicyDisabled)])
    else
      var v := SameMarket(r.slots, c, e.scores, e.config.minDelta);
      var check := EarlyCheck(r.empty, r.openMarkets, c, v, e.snapshot);
      var released := Released(r.slots, v);
      var approved := ApprovedOrder(r.budget, c, v, released, e);
      if check.Stop? then r.(blocked := r.blocked + [Block(k, check.reason)])
      else if approved < e.config.minOrder then r.(blocked := r.blocked + [Block(k, SizeReason(v, released, e))])
      else if v.Replaceable? then AcceptReplacement(r, k, c, r.slots[v.index], approved, e)
      else AcceptEmpty(r, k, c, approved, e)
  }

  // The first n candidates; the loop ends once enough were accepted.
  function Visits(start: Run, cs: seq<Candidate>, n: nat, e: Setting): Run
    requires n <= |cs|
  {
    if n == 0 then start
    else
      var r := Visits(start, cs, n - 1, e);
      if |r.accepted| >= e.config.maxNew then r else Visit(r, n - 1, cs[n - 1], e)
  }

  function EmptyOf(slots: seq<Slot>): seq<Slot> {
    if slots == [] then []
    else if slots[0].status.Empty? then [slots[0]] + EmptyOf(slots[1..])
    else EmptyOf(slots[1..])
  }

  function StartRun(t: Tables, openMarkets: set<string>, nextSession: int, e: Setting): Run {
    Run(t, t.slots, EmptyOf(t.slots), openMarkets, Budget(e.snapshot), nextSession, [], [])
  }

  // ----- the loop of the run

  method FindSameMarketSlot(slots: seq<Slot>, c: Candidate, scores: map<int, real>, minDelta: real)
    returns (v: Verdict)
    ensures v == SameMarket(slots, c, scores, minDelta)
  {
    var i := 0;
    while i < |slots| && slots[i].market != c.market
      invariant 0 <= i <= |slots|
      invariant SameMarket(slots, c, scores, minDelta) == Shifted(SameMarket(slots[i..], c, scores, minDelta), i)
    {
      assert slots[i..][1..] == slots[i + 1..];
      i := i + 1;
    }
    if i == |slots| {
      return NoSameMarketSlot;
    }
    var s := slots[i];
    if !s.status.Reserved? || s.position != 0 {
      return Refused(DuplicateMarket);
    }
    if s.candidate == c.id {
      return Refused(AlreadyReserved);
    }
    if s.candidate in scores && s.candidate != 0 && c.score - scores[s.candidate] < minDelta {
      return Refused(ScoreDeltaTooSmall);
    }
    return Replaceable(i);
  }

  method ReserveInTables(db: SlotDb, slot: int, entry: Entry, now: int)
    modifies db
    ensures db.State() == ReserveEmpty(old(db.State()), slot, entry, now)
  {
    var id := db.CreateOrderReservation(entry.market, entry.candidate, slot, entry.amount, Held, entry.expires);
    db.ReservePositionSlot(slot, entry.market, entry.candidate, entry.session, entry.amount, now);
  }

  method ReplaceInTables(db: SlotDb, s: Slot, entry: Entry, now: int) returns (row: Slot)
    modifies db
    ensures db.State() == ReplaceReserved(old(db.State()), s, entry, now)
    ensures row == RowAfter(db.State(), s)
  {
    if s.candidate != 0 {
      var changed := db.UpdateOrderReservationStatus(Where(s.candidate, entry.market, {Held}), Replaced);
    }
    ReserveInTables(db, s.id, entry, now);
    var i := IndexOf(db.slots, s.id);
    row := if i >= 0 then db.slots[i] else s;
  }

  method RunCandidates(db: SlotDb, cs: seq<Candidate>, openMarkets: set<string>, session: int, e: Setting)
    returns (accepted: seq<Acceptance>, blocked: seq<Block>)
    modifies db
    ensures var r := Visits(StartRun(old(db.State()), openMarkets, session, e), cs, |cs|, e);
            db.State() == r.tables && accepted == r.accepted && blocked == r.blocked
  {
    hide ReserveEmpty;
    hide ReplaceReserved;
    hide Renewed;
    hide RowAfter;
    hide EarlyCheck;
    hide ApprovedOrder;
    hide SizeReason;
    hide SameMarket;
    hide Visits;
    hide EmptyOf;
    hide Budget;
    accepted, blocked := [], [];
    var slots, empty, taken := db.slots, EmptyOf(db.slots), openMarkets;
    var budget, nextSession := Budget(e.snapshot), session;
    ghost var start := StartRun(db.State(), openMarkets, session, e);
    NoVisits(start, cs, e);
    var k := 0;
    while k < |cs| && |accepted| < e.config.maxNew
      invariant 0 <= k <= |cs|
      invariant Run(db.State(), slots, empty, taken, budget, nextSession, accepted, blocked) == Visits(start, cs, k, e)
    {
      VisitsNext(start, cs, k + 1, e);
      var c := cs[k];
      var v := FindSameMarketSlot(slots, c, e.scores, e.config.minDelta);
      var check := EarlyCheck(empty, taken, c, v, e.snapshot);
      var released := Released(slots, v);
      var approved := ApprovedOrder(budget, c, v, released, e);
      ghost var before := Visits(start, cs, k, e);
      if check.Clear? && !v.Replaceable? {
        EmptyForPlain(before, c, v, e);
      }
      if !e.config.autoTrading {
        blocked := blocked + [Block(k, PolicyDisabled)];
      } else if check.Stop? {
        blocked := blocked + [Block(k, check.reason)];
      } else if approved < e.config.minOrder {
        blocked := blocked + [Block(k, SizeReason(v, released, e))];
      } else if v.Replaceable? {
        var s := slots[v.index];
        var row := ReplaceInTables(db, s, EntryOf(nextSession, c, approved, e), e.now);
        accepted := accepted + [Acceptance(k, c.market, s.id, approved, true, s.reserved, budget)];
        taken := taken + {c.market};
        budget := Max(budget + s.reserved - approved, 0.0);
        slots := Renewed(slots, row);
        nextSession := nextSession + 1;
      } else {
        var s := empty[0];
        empty := empty[1..];
        ReserveInTables(db, s.id, EntryOf(nextSession, c, approved, e), e.now);
        accepted := accepted + [Acceptance(k, c.market, s.id, approved, false, 0.0, budget)];
        taken := taken + {c.market};
        budget := Max(budget - approved, 0.0);
        nextSession := nextSession + 1;
      }
      k := k + 1;
    }
    EnoughAccepted(start, cs, k, |cs|, e);
  }

  lemma NoVisits(start: Run, cs: seq<Candidate>, e: Setting)
    ensures Visits(start, cs, 0, e) == start
  {
  }

  lemma VisitsNext(start: Run, cs: seq<Candidate>, n: nat, e: Setting)
    requires 0 < n <= |cs|
    ensures var r := Visits(start, cs, n - 1, e);
            Visits(start, cs, n, e) == if |r.accepted| >= e.config.maxNew then r else Visit(r, n - 1, cs[n - 1], e)
  {
  }

  // A candidate that passes the checks and replaces nobody has an empty slot to take.
  lemma EmptyForPlain(r: Run, c: Candidate, v: Verdict, e: Setting)
    requires EarlyCheck(r.empty, r.openMarkets, c, v, e.snapshot).Clear? && !v.Replaceable?
    ensures r.empty != []
  {
  }

  lemma {:induction false} EnoughAccepted(start: Run, cs: seq<Candidate>, k: nat, n: nat, e: Setting)
    requires k <= n <= |cs|
    requires |Visits(start, cs, k, e).accepted| >= e.config.maxNew || k == n
    ensures Visits(start, cs, n, e) == Visits(start, cs, k, e)
  {
    if k < n {
      EnoughAccepted(start, cs, k, n - 1, e);
    }
  }
}
