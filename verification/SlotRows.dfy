/** The rows that the slot operations write, column by column, and the rows they leave. */
module SlotRows {
  import opened KeySort
  import opened SlotTables
  import opened SlotReconcile
  import opened SlotCoupling

  // The statuses of a position that needs a slot.
  predicate Needs(p: Position) {
    p.status == Open || p.status == ExitCandidate || p.status == ExitPending || p.status == Closing || p.status == ManualReview
  }

  // The slot shows the position's own columns.
  predicate Shows(s: Slot, p: Position) {
    && s.position == p.id && s.status == p.status && s.market == p.market && s.candidate == p.candidate
    && s.session == p.session && s.openedAt == p.openedAt && s.closedAt == 0
    && s.value == p.price * p.volume && s.reserved == 0.0
    && s.committed == (if p.entryAmount != 0.0 then p.entryAmount else p.price * p.volume)
    && s.unrealized == p.unrealized && s.realized == p.realized
  }

  // The slot has been emptied, at the given time.
  predicate Blank(s: Slot, closed: int) {
    && s.status == Empty && s.market == "" && s.candidate == 0 && s.position == 0 && s.session == 0
    && s.committed == 0.0 && s.reserved == 0.0 && s.value == 0.0 && s.unrealized == 0.0 && s.realized == 0.0
    && s.openedAt == 0 && s.closedAt == closed
  }

  predicate HoldsMoney(r: Reservation) { r.status == Held || r.status == OrderSubmitted }

  predicate RunOut(r: Reservation, now: int) { r.expires.At? && r.expires.time <= now }

  // ----- a reconciliation

  // A reservation afterwards: expired if it was open and has run out, and otherwise as it was.
  predicate Expires(after: Reservation, before: Reservation, now: int) {
    && after.id == before.id && after.market == before.market && after.candidate == before.candidate
    && after.slot == before.slot && after.amount == before.amount && after.expires == before.expires
    && after.status == (if (before.status == Pending || HoldsMoney(before)) && RunOut(before, now) then Expired else before.status)
  }

  // A live reservation that has not run out stands behind the slot.
  predicate StandsBehind(rs: seq<Reservation>, slot: int, now: int) {
    exists j :: 0 <= j < |rs| && rs[j].slot == slot && HoldsMoney(rs[j]) && !RunOut(rs[j], now)
  }

  // A slot that ends up without an active position is left as it was or emptied.
  predicate LeftOrEmptied(after: Slot, before: Slot, rs: seq<Reservation>, now: int) {
    && after.id == before.id && after.number == before.number
    && (if || (before.status == Reserved && StandsBehind(rs, before.id, now))
           || before.status == Entering || before.status == Empty
        then after == before else Blank(after, now))
  }

  predicate ShowsSome(s: Slot, ps: seq<Position>) {
    exists p :: p in ps && Needs(p) && Shows(s, p)
  }

  lemma ExpireReads(t: Tables, max: int, now: int, j: nat)
    requires WellFormed(t) && j < |t.reservations|
    ensures |Reconciled(t, max, now).reservations| == |t.reservations|
    ensures Expires(Reconciled(t, max, now).reservations[j], t.reservations[j], now)
  {
    EnsureKeeps(t, AtLeastOne(max));
  }

  lemma BackedMeansStandsBehind(rs: seq<Reservation>, slot: int, now: int)
    ensures Backed(ExpireAll(rs, now), slot, now) <==> StandsBehind(rs, slot, now)
  {
    var after := ExpireAll(rs, now);
    if Backed(after, slot, now) {
      var j :| 0 <= j < |after| && after[j].slot == slot && Live(after[j]) && !Past(after[j].expires, now);
      assert after[j] == ExpireOne(rs[j], now);
      assert rs[j].slot == slot && HoldsMoney(rs[j]) && !RunOut(rs[j], now);
    }
    if StandsBehind(rs, slot, now) {
      var j :| 0 <= j < |rs| && rs[j].slot == slot && HoldsMoney(rs[j]) && !RunOut(rs[j], now);
      assert after[j] == rs[j];
      assert after[j].slot == slot && Live(after[j]) && !Past(after[j].expires, now);
    }
  }

  // The tables between the steps of a reconciliation.
  lemma ReconcileSteps(t: Tables, max: int, now: int)
    requires WellFormed(t)
    ensures var e, after := Ensure(t, AtLeastOne(max)), Reconciled(t, max, now);
            var released := ReleaseSlots(e.slots, ExpireAll(t.reservations, now), ActiveIds(t.positions), now);
            && t.slots <= e.slots && |after.slots| == |e.slots| == |released| && CleanRows(e.slots)
            && after.slots == PlaceAll(released, Queue(t.positions), max)
            && SameOrMoved(released, after.slots, Queue(t.positions), max)
            && AllSettled(after.slots, Queue(t.positions), max)
    ensures forall p :: p in Queue(t.positions) <==> p in t.positions && Active(p.status)
  {
    var e := Ensure(t, AtLeastOne(max));
    EnsureKeeps(t, AtLeastOne(max));
    ReleaseKeeps(e, ExpireAll(e.reservations, now), now);
    QueueMembers(e.positions);
    QueueDistinct(e.positions);
    PlaceAllKeeps(ReleaseSlots(e.slots, ExpireAll(e.reservations, now), ActiveIds(e.positions), now), Queue(e.positions), max);
  }

  lemma FilledShows(s: Slot, p: Position)
    ensures Shows(Filled(s, p), p)
    ensures Filled(s, p).id == s.id && Filled(s, p).number == s.number
    ensures Active(p.status) <==> Needs(p)
  {
  }

  lemma ReleasedReads(b: Slot, rs: seq<Reservation>, active: set<int>, now: int)
    requires CleanRow(b) && 0 !in active
    ensures var r := ReleaseClosed(ReleaseUnbacked(b, ExpireAll(rs, now), now), active, now);
            && r.id == b.id && r.number == b.number
            && (b.position !in active ==> LeftOrEmptied(r, b, rs, now))
            && (b.position in active && b.status != Empty && b.status != Reserved ==> r == b)
  {
    BackedMeansStandsBehind(rs, b.id, now);
    hide Backed;
    hide StandsBehind;
  }

  // Every row after a reconciliation: it shows an active position, column by column, or it
  // was left or emptied as its own status and reservations say.
  lemma ReconciledRow(t: Tables, max: int, now: int, i: nat)
    requires WellFormed(t) && i < |t.slots|
    ensures i < |Reconciled(t, max, now).slots|
    ensures var after := Reconciled(t, max, now).slots[i];
            && after.id == t.slots[i].id && after.number == t.slots[i].number
            && (ShowsSome(after, t.positions) || LeftOrEmptied(after, t.slots[i], t.reservations, now))
    ensures ShowsSome(Reconciled(t, max, now).slots[i], t.positions) || Reconciled(t, max, now).slots[i].position !in ActiveIds(t.positions)
  {
    ReconcileSteps(t, max, now);
    var e, rs, active, queue := Ensure(t, AtLeastOne(max)), t.reservations, ActiveIds(t.positions), Queue(t.positions);
    var released := ReleaseSlots(e.slots, ExpireAll(rs, now), active, now);
    var after := Reconciled(t, max, now).slots;
    assert 0 !in active && e.slots[i] == t.slots[i] && CleanRow(e.slots[i]);
    assert released[i] == ReleaseClosed(ReleaseUnbacked(e.slots[i], ExpireAll(rs, now), now), active, now);
    ReleasedReads(e.slots[i], rs, active, now);
    hide Reconciled;
    hide Ensure;
    hide ReleaseSlots;
    hide Queue;
    hide ActiveIds;
    hide LeftOrEmptied;
    if after[i] != released[i] {
      var k :| 0 <= k < |queue| && Moved(released[i], after[i], queue[k], max);
      FilledShows(released[i], queue[k]);
      assert queue[k] in queue;
    } else {
      UnmovedRow(t, max, now, i);
    }
  }

  // A row that no placing has touched shows an active position or none.
  lemma UnmovedRow(t: Tables, max: int, now: int, i: nat)
    requires WellFormed(t) && i < |t.slots|
    ensures i < |Reconciled(t, max, now).slots|
    ensures ShowsSome(Reconciled(t, max, now).slots[i], t.positions)
         || (Reconciled(t, max, now).slots[i].position !in ActiveIds(t.positions) && t.slots[i].position !in ActiveIds(t.positions))
  {
    ReconcileSteps(t, max, now);
    ReconcileKeepsWellFormed(t, max, now);
    var after, queue := Reconciled(t, max, now).slots, Queue(t.positions);
    if t.slots[i].position in ActiveIds(t.positions) {
      ReconcileKeepsPlaced(t, max, now, i);
    }
    hide Reconciled;
    hide Ensure;
    hide ReleaseSlots;
    hide PlaceAll;
    hide SameOrMoved;
    if after[i].position in ActiveIds(t.positions) {
      var p :| p in t.positions && Active(p.status) && p.id == after[i].position;
      assert p in queue;
      var k :| 0 <= k < |queue| && queue[k] == p;
      ServedRow(after, p, max, i);
      FilledShows(after[i], p);
    }
  }

  lemma ServedRow(slots: seq<Slot>, p: Position, max: int, i: nat)
    requires Injective(slots) && Served(slots, p, max) && i < |slots| && slots[i].position == p.id && p.id != 0
    ensures slots[i] == Filled(slots[i], p)
  {
    HoldsMeans(slots, p.id);
    hide Holds;
    assert Settled(slots, p);
    var j :| 0 <= j < |slots| && slots[j].position == p.id && slots[j] == Filled(slots[j], p);
    assert i == j;
  }

  // Every slot that holds an active position shows it, and a position without one finds no
  // EMPTY slot up to the maximum.
  lemma PositionsAreShown(t: Tables, max: int, now: int, p: Position)
    requires WellFormed(t) && p in t.positions && Needs(p)
    ensures var after := Reconciled(t, max, now).slots;
            && (forall i | 0 <= i < |after| && after[i].position == p.id :: Shows(after[i], p))
            && ((exists i :: 0 <= i < |after| && after[i].position == p.id)
                || forall i | 0 <= i < |after| && after[i].number <= max :: after[i].status != Empty)
  {
    ReconcileKeepsWellFormed(t, max, now);
    ReconcileIsMaximal(t, max, now, p);
    var after := Reconciled(t, max, now).slots;
    hide Reconciled;
    HoldsMeans(after, p.id);
    hide Holds;
    forall i | 0 <= i < |after| && after[i].position == p.id ensures Shows(after[i], p) {
      assert p.id > 0;
      HoldsMeans(after, p.id);
      ServedRow(after, p, max, i);
      FilledShows(after[i], p);
    }
  }

  // Rows beyond the old ones are new: blank or showing a position, and every number from 1
  // up to the maximum is there.
  lemma {:induction false} NewRowsReads(t: Tables, n: nat, i: nat)
    requires WellFormed(t) && |t.slots| <= i < |Ensure(t, n).slots|
    ensures Blank(Ensure(t, n).slots[i], 0) && 1 <= Ensure(t, n).slots[i].number <= n
    ensures t.nextSlot <= Ensure(t, n).slots[i].id < Ensure(t, n).nextSlot
  {
    EnsureKeeps(t, n);
    if n > 0 {
      EnsureKeeps(t, n - 1);
      if i < |Ensure(t, n - 1).slots| {
        NewRowsReads(t, n - 1, i);
      }
    }
  }

  lemma ReconciledNewRow(t: Tables, max: int, now: int, i: nat)
    requires WellFormed(t) && |t.slots| <= i < |Reconciled(t, max, now).slots|
    ensures var s := Reconciled(t, max, now).slots[i];
            && 1 <= s.number <= (if max < 1 then 1 else max) && s.id >= t.nextSlot
            && (ShowsSome(s, t.positions) || Blank(s, 0))
  {
    ReconcileSteps(t, max, now);
    var e, rs, active, queue := Ensure(t, AtLeastOne(max)), t.reservations, ActiveIds(t.positions), Queue(t.positions);
    NewRowsReads(t, AtLeastOne(max), i);
    var released := ReleaseSlots(e.slots, ExpireAll(rs, now), active, now);
    var after := Reconciled(t, max, now).slots;
    assert released[i] == ReleaseClosed(ReleaseUnbacked(e.slots[i], ExpireAll(rs, now), now), active, now);
    assert released[i] == e.slots[i];
    hide Reconciled;
    hide Ensure;
    hide ReleaseSlots;
    hide Queue;
    if after[i] != released[i] {
      var k :| 0 <= k < |queue| && Moved(released[i], after[i], queue[k], max);
      FilledShows(released[i], queue[k]);
      assert queue[k] in queue;
    }
  }

  lemma ReconciledNumbers(t: Tables, max: int, now: int, number: nat)
    requires WellFormed(t) && 1 <= number <= (if max < 1 then 1 else max)
    ensures exists i :: 0 <= i < |Reconciled(t, max, now).slots| && Reconciled(t, max, now).slots[i].number == number
  {
    EnsureKeeps(t, AtLeastOne(max));
    ReconcileSteps(t, max, now);
    var e, after := Ensure(t, AtLeastOne(max)), Reconciled(t, max, now).slots;
    assert HasNumber(e.slots, number);
    var i :| 0 <= i < |e.slots| && e.slots[i].number == number;
    var released := ReleaseSlots(e.slots, ExpireAll(t.reservations, now), ActiveIds(t.positions), now);
    assert released[i].number == number;
    assert after[i].number == number;
  }

  // A position takes the lowest EMPTY number: no slot that stays EMPTY up to the maximum
  // has a smaller number than one that was taken.
  lemma {:induction false} LowestNumbersFirst(slots: seq<Slot>, ps: seq<Position>, max: int, i: nat, k: nat)
    requires Layout(slots) && DistinctPositions(ps) && forall j | 0 <= j < |ps| :: Active(ps[j].status)
    requires i < |slots| && k < |slots| && slots[i].status == Empty && |PlaceAll(slots, ps, max)| == |slots|
    requires PlaceAll(slots, ps, max)[i].status != Empty && PlaceAll(slots, ps, max)[k].status == Empty && slots[k].number <= max
    ensures slots[i].number < slots[k].number
  {
    hide LowestVacant;
    if ps != [] {
      var n := |ps| - 1;
      var front, p := ps[..n], ps[n];
      PlaceAllKeeps(slots, front, max);
      var mid := PlaceAll(slots, front, max);
      PlaceOneMoves(mid, p, max);
      assert forall j | 0 <= j < |front| :: front[j] == ps[j];
      var after := PlaceOne(mid, p, max);
      assert after == PlaceAll(slots, ps, max);
      hide PlaceAll;
      NumberKept(slots, mid, front, max, i);
      NumberKept(slots, mid, front, max, k);
      assert mid[k].status == Empty by { EmptyStaysEmpty(mid, p, max, k); }
      if mid[i].status != Empty {
        LowestNumbersFirst(slots, front, max, i, k);
      } else {
        TakenIsLowest(mid, p, max, i, k);
      }
    }
  }

  lemma NumberKept(before: seq<Slot>, after: seq<Slot>, ps: seq<Position>, max: int, i: nat)
    requires SameOrMoved(before, after, ps, max) && i < |before|
    ensures after[i].number == before[i].number
  {
  }

  lemma EmptyStaysEmpty(slots: seq<Slot>, p: Position, max: int, k: nat)
    requires k < |slots| && Active(p.status) && PlaceOne(slots, p, max)[k].status == Empty
    ensures slots[k].status == Empty
  {
  }

  lemma TakenIsLowest(slots: seq<Slot>, p: Position, max: int, i: nat, k: nat)
    requires Layout(slots) && Active(p.status) && p.id > 0
    requires i < |slots| && k < |slots| && slots[i].status == Empty && slots[k].status == Empty && slots[k].number <= max
    requires PlaceOne(slots, p, max)[i].status != Empty && PlaceOne(slots, p, max)[k].status == Empty
    ensures slots[i].number < slots[k].number
  {
    assert CleanRow(slots[i]);
    assert i != k;
    assert slots[i].number != slots[k].number;
  }

  // ----- reserving and replacing

  // A row the allocator has reserved for an entry.
  predicate ReservedFor(after: Slot, before: Slot, e: Entry, now: int) {
    && after.id == before.id && after.number == before.number && after.status == Reserved
    && after.market == e.market && after.candidate == e.candidate && after.session == e.session
    && after.committed == e.amount && after.reserved == e.amount && after.openedAt == now && after.closedAt == 0
    && after.position == before.position && after.value == before.value
    && after.unrealized == before.unrealized && after.realized == before.realized
  }

  lemma ReserveReads(t: Tables, i: nat, e: Entry, now: int)
    requires DistinctSlots(t.slots) && i < |t.slots|
    ensures var after := ReserveEmpty(t, t.slots[i].id, e, now);
            && |after.slots| == |t.slots| && ReservedFor(after.slots[i], t.slots[i], e, now)
            && (forall k | 0 <= k < |t.slots| && k != i :: after.slots[k] == t.slots[k])
            && after.reservations == t.reservations
                 + [Reservation(t.nextReservation, e.market, e.candidate, t.slots[i].id, e.amount, Held, e.expires)]
            && after.nextReservation == t.nextReservation + 1 && after.positions == t.positions
  {
    ReserveRow(t, i, e, now);
  }

  // A reservation after a status update with the given filters.
  predicate Updated(after: Reservation, before: Reservation, candidate: int, market: string,
                    previous: set<ReservationStatus>, to: ReservationStatus) {
    && after.id == before.id && after.market == before.market && after.candidate == before.candidate
    && after.slot == before.slot && after.amount == before.amount && after.expires == before.expires
    && after.status == if && before.status in previous && (candidate == 0 || before.candidate == candidate)
                          && (market == "" || before.market == market)
                       then to else before.status
  }

  lemma UpdateReads(rs: seq<Reservation>, candidate: int, market: string, previous: set<ReservationStatus>, to: ReservationStatus)
    ensures var after := SetStatus(rs, Where(candidate, market, previous), to);
            && |after| == |rs| && forall j | 0 <= j < |rs| :: Updated(after[j], rs[j], candidate, market, previous, to)
  {
  }

  predicate Asked(r: Reservation, candidate: int, market: string, previous: set<ReservationStatus>) {
    r.status in previous && (candidate == 0 || r.candidate == candidate) && (market == "" || r.market == market)
  }

  // The number returned is that of the rows the filters select.
  lemma {:induction false} UpdateCounts(rs: seq<Reservation>, candidate: int, market: string, previous: set<ReservationStatus>)
    ensures Selected(rs, Where(candidate, market, previous)) == |Places(rs, candidate, market, previous)|
  {
    if rs == [] {
      assert Places(rs, candidate, market, previous) == {};
    } else {
      UpdateCounts(rs[..|rs| - 1], candidate, market, previous);
      PlacesNext(rs, candidate, market, previous);
      hide Places;
    }
  }

  function Places(rs: seq<Reservation>, candidate: int, market: string, previous: set<ReservationStatus>): set<int> {
    set j | 0 <= j < |rs| && Asked(rs[j], candidate, market, previous)
  }

  lemma PlacesNext(rs: seq<Reservation>, candidate: int, market: string, previous: set<ReservationStatus>)
    requires rs != []
    ensures var n := |rs| - 1;
            var before := Places(rs[..n], candidate, market, previous);
            && n !in before
            && Places(rs, candidate, market, previous) == if Asked(rs[n], candidate, market, previous) then before + {n} else before
  {
  }

  // A replacement closes the held reservations of the old candidate in the market, unless
  // the slot names none, and reserves the slot for the new entry.
  lemma ReplaceReads(t: Tables, i: nat, e: Entry, now: int)
    requires DistinctSlots(t.slots) && i < |t.slots|
    ensures var s, n, after := t.slots[i], |t.reservations|, ReplaceReserved(t, t.slots[i], e, now);
            && |after.slots| == |t.slots| && ReservedFor(after.slots[i], s, e, now)
            && (forall k | 0 <= k < |t.slots| && k != i :: after.slots[k] == t.slots[k])
            && |after.reservations| == n + 1
            && after.reservations[n] == Reservation(t.nextReservation, e.market, e.candidate, s.id, e.amount, Held, e.expires)
            && (forall j | 0 <= j < n ::
                  if s.candidate != 0 then Updated(after.reservations[j], t.reservations[j], s.candidate, e.market, {Held}, Replaced)
                  else after.reservations[j] == t.reservations[j])
  {
    var rs := SetStatus(t.reservations, Where(t.slots[i].candidate, e.market, {Held}), Replaced);
    UpdateReads(t.reservations, t.slots[i].candidate, e.market, {Held}, Replaced);
    ReserveReads(t.(reservations := rs), i, e, now);
    ReserveReads(t, i, e, now);
    hide SetStatus;
    hide ReserveEmpty;
    hide Updated;
    hide ReservedFor;
  }

  // ----- finalising an entry

  predicate Candidates(s: Slot, p: Position) {
    && s.market == p.market && s.candidate == p.candidate
    && (s.status == Reserved || s.status == Entering || s.status == Open)
  }

  predicate InSession(s: Slot, p: Position) {
    Candidates(s, p) && p.session != 0 && s.session == p.session
  }

  predicate FreeOrOwn(s: Slot, p: Position) {
    Candidates(s, p) && (s.position == 0 || s.position == p.id)
  }

  // RESERVED goes before ENTERING, and both go before OPEN.
  predicate GoesBefore(a: Status, b: Status) {
    (a == Reserved && b != Reserved) || (a == Entering && b == Open)
  }

  // The row of a session match; without one of a free or own match; without either the
  // first row that holds the position, or none (-1).
  predicate Chosen(slots: seq<Slot>, p: Position, i: int) {
    if exists k :: 0 <= k < |slots| && InSession(slots[k], p) then
      && 0 <= i < |slots| && InSession(slots[i], p)
      && forall k | 0 <= k < |slots| && InSession(slots[k], p) :: !GoesBefore(slots[k].status, slots[i].status)
    else if exists k :: 0 <= k < |slots| && FreeOrOwn(slots[k], p) then
      && 0 <= i < |slots| && FreeOrOwn(slots[i], p)
      && forall k | 0 <= k < |slots| && FreeOrOwn(slots[k], p) :: !GoesBefore(slots[k].status, slots[i].status)
    else if exists k :: 0 <= k < |slots| && slots[k].position == p.id then
      && 0 <= i < |slots| && slots[i].position == p.id && forall k | 0 <= k < i :: slots[k].position != p.id
    else i == -1
  }

  lemma RanksRead(a: Slot, b: Slot, p: Position)
    requires Candidates(a, p) && Candidates(b, p)
    ensures Rank(a.status) <= Rank(b.status) <==> !GoesBefore(b.status, a.status)
  {
  }

  lemma PicksReads(slots: seq<Slot>, p: Position, matches: Slot -> bool, i: int)
    requires forall s | matches(s) :: Candidates(s, p)
    ensures Picks(slots, matches, i) <==>
              && 0 <= i < |slots| && matches(slots[i])
              && forall k | 0 <= k < |slots| && matches(slots[k]) :: !GoesBefore(slots[k].status, slots[i].status)
  {
    if 0 <= i < |slots| && matches(slots[i]) {
      forall k | 0 <= k < |slots| && matches(slots[k])
        ensures Rank(slots[i].status) <= Rank(slots[k].status) <==> !GoesBefore(slots[k].status, slots[i].status)
      {
        RanksRead(slots[i], slots[k], p);
      }
    }
  }

  lemma EntryChoiceReads(slots: seq<Slot>, p: Position, i: int)
    ensures EntryChoice(slots, p, i) <==> Chosen(slots, p, i)
  {
    forall s ensures SessionMatch(p)(s) <==> InSession(s, p) {
    }
    forall s ensures PositionMatch(p)(s) <==> FreeOrOwn(s, p) {
    }
    hide BySession;
    hide ByPosition;
    PicksReads(slots, p, SessionMatch(p), i);
    PicksReads(slots, p, PositionMatch(p), i);
    hide Picks;
    hide HolderOf;
  }

  // The chosen row after the entry has been finalised; a missing current price is replaced
  // by the entry price, a missing opening time by the position's or the present.
  predicate EntryShown(after: Slot, before: Slot, p: Position, now: int) {
    var value := (if p.price != 0.0 then p.price else p.entryPrice) * p.volume;
    && after.id == before.id && after.number == before.number && after.position == p.id && after.status == p.status
    && after.market == p.market && after.candidate == p.candidate && after.session == p.session
    && after.value == value && after.reserved == 0.0
    && after.committed == (if p.entryAmount != 0.0 then p.entryAmount else value)
    && after.unrealized == p.unrealized && after.realized == p.realized && after.closedAt == 0
    && after.openedAt == (if before.openedAt != 0 then before.openedAt else if p.openedAt != 0 then p.openedAt else now)
  }

  // A reservation after an entry has been finalised in the slot with the given id, -1 for none.
  predicate ConsumedBy(after: Reservation, before: Reservation, p: Position, slot: int, status: ReservationStatus) {
    && after.id == before.id && after.market == before.market && after.candidate == before.candidate
    && after.slot == before.slot && after.amount == before.amount && after.expires == before.expires
    && after.status == if && HoldsMoney(before) && before.market == p.market && before.candidate == p.candidate
                          && (slot < 0 || before.slot == slot || before.slot == 0)
                       then status else before.status
  }

  lemma FinalizeReads(t: Tables, p: Position, i: int, status: ReservationStatus, now: int)
    requires -1 <= i < |t.slots|
    ensures var after := Finalized(t, p, i, status, now);
            && |after.slots| == |t.slots| && |after.reservations| == |t.reservations| && after.positions == t.positions
            && (i >= 0 ==> EntryShown(after.slots[i], t.slots[i], p, now))
            && (forall k | 0 <= k < |t.slots| && k != i :: after.slots[k] == t.slots[k])
            && forall j | 0 <= j < |t.reservations| ::
                 ConsumedBy(after.reservations[j], t.reservations[j], p, if i >= 0 then t.slots[i].id else -1, status)
  {
  }

  // Which positions can be finalised.
  lemma FinalizableExactlyWhen(p: Position)
    ensures Active(p.status) <==> Needs(p)
  {
  }
}
