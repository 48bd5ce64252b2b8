/** The position_slots, order_reservations and live_positions tables of one exchange
    and the database steps on them. A text or id column that is NULL is "" or 0. */
module SlotTables {
  import opened KeySort

  datatype Status = Empty | Reserved | Entering
                  | Open | ExitCandidate | ExitPending | Closing | ManualReview | Closed

  predicate Active(s: Status) {
    s.Open? || s.ExitCandidate? || s.ExitPending? || s.Closing? || s.ManualReview?
  }

  datatype Slot = Slot(id: int, number: int, status: Status, market: string, candidate: int,
                       position: int, session: int, committed: real, reserved: real, value: real,
                       unrealized: real, realized: real, openedAt: int, closedAt: int)

  datatype Position = Position(id: int, status: Status, market: string, candidate: int, session: int,
                               entryPrice: real, price: real, volume: real, entryAmount: real,
                               unrealized: real, realized: real, openedAt: int)

  datatype ReservationStatus = Pending | Held | OrderSubmitted | Expired | Replaced | Consumed | Ended

  datatype Expiry = Never | At(time: int)

  // `Held` is the status text RESERVED; `Ended` stands for every other closing status.
  datatype Reservation = Reservation(id: int, market: string, candidate: int, slot: int,
                                     amount: real, status: ReservationStatus, expires: Expiry)

  datatype Tables = Tables(slots: seq<Slot>, reservations: seq<Reservation>, positions: seq<Position>,
                           nextSlot: int, nextReservation: int)

  // ----- reservations

  predicate Live(r: Reservation) { r.status.Held? || r.status.OrderSubmitted? }

  predicate Past(e: Expiry, now: int) { e.At? && e.time <= now }

  function ExpireOne(r: Reservation, now: int): Reservation {
    if (r.status.Pending? || Live(r)) && Past(r.expires, now) then r.(status := Expired) else r
  }

  function ExpireAll(rs: seq<Reservation>, now: int): seq<Reservation> {
    seq(|rs|, i requires 0 <= i < |rs| => ExpireOne(rs[i], now))
  }

  datatype Where = Where(candidate: int, market: string, previous: set<ReservationStatus>)

  // A filter column that is 0 or "" is not part of the WHERE clause.
  predicate Selects(f: Where, r: Reservation) {
    r.status in f.previous && (f.candidate == 0 || r.candidate == f.candidate)
    && (f.market == "" || r.market == f.market)
  }

  function SetStatus(rs: seq<Reservation>, f: Where, status: ReservationStatus): seq<Reservation> {
    seq(|rs|, i requires 0 <= i < |rs| => if Selects(f, rs[i]) then rs[i].(status := status) else rs[i])
  }

  function Selected(rs: seq<Reservation>, f: Where): nat {
    if rs == [] then 0 else Selected(rs[..|rs| - 1], f) + if Selects(f, rs[|rs| - 1]) then 1 else 0
  }

  // ----- slots

  function Cleared(s: Slot, now: int): Slot {
    Slot(s.id, s.number, Empty, "", 0, 0, 0, 0.0, 0.0, 0.0, 0.0, 0.0, 0, now)
  }

  function FreshSlot(id: int, number: int): Slot {
    Slot(id, number, Empty, "", 0, 0, 0, 0.0, 0.0, 0.0, 0.0, 0.0, 0, 0)
  }

  predicate Backed(rs: seq<Reservation>, slot: int, now: int) {
    exists j :: 0 <= j < |rs| && rs[j].slot == slot && Live(rs[j]) && !Past(rs[j].expires, now)
  }

  function ReleaseUnbacked(s: Slot, rs: seq<Reservation>, now: int): Slot {
    if s.status.Reserved? && !Backed(rs, s.id, now) then Cleared(s, now) else s
  }

  function ActiveIds(ps: seq<Position>): set<int> {
    set p | p in ps && Active(p.status) :: p.id
  }

  function ReleaseClosed(s: Slot, active: set<int>, now: int): Slot {
    if !s.status.Reserved? && !s.status.Entering? && (s.position != 0 || !s.status.Empty?)
       && (s.position == 0 || s.position !in active)
    then Cleared(s, now) else s
  }

  function ReleaseSlots(slots: seq<Slot>, rs: seq<Reservation>, active: set<int>, now: int): seq<Slot> {
    seq(|slots|, i requires 0 <= i < |slots| => ReleaseClosed(ReleaseUnbacked(slots[i], rs, now), active, now))
  }

  // Positions in (opened_at, id) order.
  function PlacementKey(): Position -> Key { (p: Position) => (p.openedAt, p.id) }

  function IsActive(): Position -> bool { (p: Position) => Active(p.status) }

  function Queue(ps: seq<Position>): seq<Position> {
    StableSort(Filter(ps, IsActive()), PlacementKey())
  }

  // First row holding the position, or -1.
  function HolderOf(slots: seq<Slot>, position: int): (i: int)
    ensures -1 <= i < |slots|
    ensures i >= 0 ==> slots[i].position == position && (forall j | 0 <= j < i :: slots[j].position != position)
    ensures i < 0 ==> forall j | 0 <= j < |slots| :: slots[j].position != position
  {
    FirstHolder(slots, position, 0)
  }

  function FirstHolder(slots: seq<Slot>, position: int, from: nat): (i: int)
    requires from <= |slots|
    ensures i == -1 || from <= i < |slots|
    ensures i >= 0 ==> slots[i].position == position && (forall j | from <= j < i :: slots[j].position != position)
    ensures i < 0 ==> forall j | from <= j < |slots| :: slots[j].position != position
    decreases |slots| - from
  {
    if from == |slots| then -1
    else if slots[from].position == position then from
    else FirstHolder(slots, position, from + 1)
  }

  predicate Vacant(s: Slot, max: int) { s.status.Empty? && s.number <= max }

  // The vacant row with the smallest slot number, or -1.
  function LowestVacant(slots: seq<Slot>, max: int): (i: int)
    ensures -1 <= i < |slots|
    ensures i >= 0 ==> Vacant(slots[i], max)
                       && forall j | 0 <= j < |slots| && Vacant(slots[j], max) :: slots[i].number <= slots[j].number
    ensures i < 0 ==> forall j | 0 <= j < |slots| :: !Vacant(slots[j], max)
  {
    if slots == [] then -1
    else
      var n := |slots| - 1;
      var best := LowestVacant(slots[..n], max);
      if !Vacant(slots[n], max) then best
      else if best >= 0 && slots[best].number <= slots[n].number then best
      else n
  }

  function ValueOf(p: Position): real { p.price * p.volume }

  function Filled(s: Slot, p: Position): Slot {
    Slot(s.id, s.number, p.status, p.market, p.candidate, p.id, p.session,
         if p.entryAmount != 0.0 then p.entryAmount else ValueOf(p), 0.0, ValueOf(p),
         p.unrealized, p.realized, p.openedAt, 0)
  }

  function PlaceOne(slots: seq<Slot>, p: Position, max: int): seq<Slot> {
    var held := HolderOf(slots, p.id);
    var i := if held >= 0 then held else LowestVacant(slots, max);
    if i < 0 then slots else slots[i := Filled(slots[i], p)]
  }

  function PlaceAll(slots: seq<Slot>, ps: seq<Position>, max: int): seq<Slot> {
    if ps == [] then slots else PlaceOne(PlaceAll(slots, ps[..|ps| - 1], max), ps[|ps| - 1], max)
  }

  function HasNumber(slots: seq<Slot>, number: int): bool {
    exists i :: 0 <= i < |slots| && slots[i].number == number
  }

  // INSERT OR IGNORE of the slot numbers 1..n.
  function Ensure(t: Tables, n: nat): Tables {
    if n == 0 then t
    else
      var b := Ensure(t, n - 1);
      if HasNumber(b.slots, n) then b
      else b.(slots := b.slots + [FreshSlot(b.nextSlot, n)], nextSlot := b.nextSlot + 1)
  }

  function AtLeastOne(max: int): nat { if max < 1 then 1 else max }

  function Reconciled(t: Tables, max: int, now: int): Tables {
    var e := Ensure(t, AtLeastOne(max));
    var rs := ExpireAll(e.reservations, now);
    var released := ReleaseSlots(e.slots, rs, ActiveIds(e.positions), now);
    e.(reservations := rs, slots := PlaceAll(released, Queue(e.positions), max))
  }

  // ----- reserving

  function ReservedSlot(s: Slot, market: string, candidate: int, session: int, amount: real, now: int): Slot {
    s.(status := Reserved, market := market, candidate := candidate, session := session,
       committed := amount, reserved := amount, openedAt := now, closedAt := 0)
  }

  function ReserveSlot(slots: seq<Slot>, slot: int, market: string, candidate: int, session: int,
                       amount: real, now: int): seq<Slot>
  {
    seq(|slots|, i requires 0 <= i < |slots| =>
      if slots[i].id == slot then ReservedSlot(slots[i], market, candidate, session, amount, now) else slots[i])
  }

  function WithReservation(t: Tables, market: string, candidate: int, slot: int, amount: real,
                           status: ReservationStatus, expires: Expiry): Tables
  {
    t.(reservations := t.reservations
         + [Reservation(t.nextReservation, market, candidate, slot, amount, status, expires)],
       nextReservation := t.nextReservation + 1)
  }

  // ----- finalising a filled entry

  function Rank(s: Status): int { if s.Reserved? then 0 else if s.Entering? then 1 else 2 }

  predicate EntrySlot(s: Slot, p: Position) {
    s.market == p.market && s.candidate == p.candidate
    && (s.status.Reserved? || s.status.Entering? || s.status.Open?)
  }

  predicate BySession(s: Slot, p: Position) { EntrySlot(s, p) && p.session != 0 && s.session == p.session }

  predicate ByPosition(s: Slot, p: Position) { EntrySlot(s, p) && (s.position == 0 || s.position == p.id) }

  // i is a row the query may return: it matches and no matching row ranks before it.
  predicate Picks(slots: seq<Slot>, matches: Slot -> bool, i: int) {
    && 0 <= i < |slots| && matches(slots[i])
    && forall j | 0 <= j < |slots| && matches(slots[j]) :: Rank(slots[i].status) <= Rank(slots[j].status)
  }

  predicate NoRow(slots: seq<Slot>, matches: Slot -> bool) {
    forall j | 0 <= j < |slots| :: !matches(slots[j])
  }

  function SessionMatch(p: Position): Slot -> bool { (s: Slot) => BySession(s, p) }
  function PositionMatch(p: Position): Slot -> bool { (s: Slot) => ByPosition(s, p) }

  // The row the three queries settle on; the tie-break among equal ranks is left open.
  predicate EntryChoice(slots: seq<Slot>, p: Position, i: int) {
    if !NoRow(slots, SessionMatch(p)) then Picks(slots, SessionMatch(p), i)
    else if !NoRow(slots, PositionMatch(p)) then Picks(slots, PositionMatch(p), i)
    else i == HolderOf(slots, p.id)
  }

  function EntryFilled(s: Slot, p: Position, now: int): Slot {
    var price := if p.price != 0.0 then p.price else p.entryPrice;
    var value := price * p.volume;
    Slot(s.id, s.number, p.status, p.market, p.candidate, p.id, p.session,
         if p.entryAmount != 0.0 then p.entryAmount else value, 0.0, value,
         p.unrealized, p.realized,
         if s.openedAt != 0 then s.openedAt else if p.openedAt != 0 then p.openedAt else now, 0)
  }

  // `slot` is the chosen row's id, or -1 when no row was chosen.
  function ConsumeOne(r: Reservation, p: Position, slot: int, status: ReservationStatus): Reservation {
    if r.market == p.market && r.candidate == p.candidate && Live(r) && (slot < 0 || r.slot == slot || r.slot == 0)
    then r.(status := status) else r
  }

  function ConsumeAll(rs: seq<Reservation>, p: Position, slot: int, status: ReservationStatus): seq<Reservation> {
    seq(|rs|, j requires 0 <= j < |rs| => ConsumeOne(rs[j], p, slot, status))
  }

  function Finalized(t: Tables, p: Position, i: int, status: ReservationStatus, now: int): Tables
    requires -1 <= i < |t.slots|
  {
    var slot := if i >= 0 then t.slots[i].id else -1;
    t.(slots := if i >= 0 then t.slots[i := EntryFilled(t.slots[i], p, now)] else t.slots,
       reservations := ConsumeAll(t.reservations, p, slot, status))
  }

  // First row of a position id, or -1.
  function PositionRow(ps: seq<Position>, id: int): (i: int)
    ensures -1 <= i < |ps|
    ensures i >= 0 ==> ps[i].id == id
    ensures i < 0 ==> forall j | 0 <= j < |ps| :: ps[j].id != id
  {
    if ps == [] then -1
    else if ps[0].id == id then 0
    else
      var i := PositionRow(ps[1..], id);
      if i < 0 then -1 else i + 1
  }

  // ----- the tables in memory

  class SlotDb {
    var slots: seq<Slot>
    var reservations: seq<Reservation>
    var positions: seq<Position>
    var nextSlot: int
    var nextReservation: int

    constructor ()
      ensures State() == Tables([], [], [], 1, 1)
    {
      slots, reservations, positions, nextSlot, nextReservation := [], [], [], 1, 1;
    }

    function State(): Tables
      reads this
    {
      Tables(slots, reservations, positions, nextSlot, nextReservation)
    }

    method EnsureSlots(max: int)
      modifies this
      ensures State() == Ensure(old(State()), AtLeastOne(max))
    {
      var n := AtLeastOne(max);
      for number := 1 to n + 1
        invariant State() == Ensure(old(State()), number - 1)
      {
        var i := 0;
        while i < |slots| && slots[i].number != number
          invariant 0 <= i <= |slots|
          invariant forall j | 0 <= j < i :: slots[j].number != number
        {
          i := i + 1;
        }
        if i == |slots| {
          slots := slots + [FreshSlot(nextSlot, number)];
          nextSlot := nextSlot + 1;
        }
      }
    }

    method ExpireReservations(now: int)
      modifies this
      ensures State() == old(State()).(reservations := ExpireAll(old(reservations), now))
    {
      ghost var before := reservations;
      for i := 0 to |reservations|
        invariant State() == old(State()).(reservations := reservations)
        invariant |reservations| == |before|
        invariant forall j | 0 <= j < i :: reservations[j] == ExpireOne(before[j], now)
        invariant forall j | i <= j < |before| :: reservations[j] == before[j]
      {
        var r := reservations[i];
        if (r.status.Pending? || Live(r)) && Past(r.expires, now) {
          reservations := reservations[i := r.(status := Expired)];
        }
      }
    }

    method ReleaseRows(active: set<int>, now: int)
      modifies this
      ensures State() == old(State()).(slots := ReleaseSlots(old(slots), reservations, active, now))
    {
      ghost var before := slots;
      for i := 0 to |slots|
        invariant State() == old(State()).(slots := slots)
        invariant |slots| == |before|
        invariant forall j | 0 <= j < i :: slots[j] == ReleaseUnbacked(before[j], reservations, now)
        invariant forall j | i <= j < |before| :: slots[j] == before[j]
      {
        if slots[i].status.Reserved? && !Backed(reservations, slots[i].id, now) {
          slots := slots[i := Cleared(slots[i], now)];
        }
      }
      for i := 0 to |slots|
        invariant State() == old(State()).(slots := slots)
        invariant |slots| == |before|
        invariant forall j | 0 <= j < i ::
                    slots[j] == ReleaseClosed(ReleaseUnbacked(before[j], reservations, now), active, now)
        invariant forall j | i <= j < |before| :: slots[j] == ReleaseUnbacked(before[j], reservations, now)
      {
        slots := slots[i := ReleaseClosed(slots[i], active, now)];
      }
    }

    method PlacePositions(queue: seq<Position>, max: int)
      modifies this
      ensures State() == old(State()).(slots := PlaceAll(old(slots), queue, max))
    {
      for k := 0 to |queue|
        invariant State() == old(State()).(slots := PlaceAll(old(slots), queue[..k], max))
      {
        assert queue[..k + 1][..k] == queue[..k];
        var p := queue[k];
        var existing := HolderOf(slots, p.id);
        if existing < 0 {
          existing := LowestVacant(slots, max);
        }
        if existing >= 0 {
          slots := slots[existing := Filled(slots[existing], p)];
        }
      }
      assert queue[..|queue|] == queue;
    }

    // One exchange: every row belongs to it.
    method ReconcilePositionSlots(max: int, now: int)
      modifies this
      ensures State() == Reconciled(old(State()), max, now)
    {
      EnsureSlots(max);
      ExpireReservations(now);
      var active := ActiveIds(positions);
      ReleaseRows(active, now);
      PlacePositions(Queue(positions), max);
    }

    method ReservePositionSlot(slot: int, market: string, candidate: int, session: int, amount: real, now: int)
      modifies this
      ensures State() == old(State()).(slots := ReserveSlot(old(slots), slot, market, candidate, session, amount, now))
    {
      ghost var before := slots;
      for i := 0 to |slots|
        invariant State() == old(State()).(slots := slots)
        invariant |slots| == |before|
        invariant forall j | 0 <= j < i ::
                    slots[j] == ReserveSlot(before, slot, market, candidate, session, amount, now)[j]
        invariant forall j | i <= j < |before| :: slots[j] == before[j]
      {
        if slots[i].id == slot {
          slots := slots[i := ReservedSlot(slots[i], market, candidate, session, amount, now)];
        }
      }
    }

    method CreateOrderReservation(market: string, candidate: int, slot: int, amount: real,
                                  status: ReservationStatus, expires: Expiry) returns (id: int)
      modifies this
      ensures State() == WithReservation(old(State()), market, candidate, slot, amount, status, expires)
      ensures id == old(nextReservation)
    {
      id := nextReservation;
      reservations := reservations + [Reservation(id, market, candidate, slot, amount, status, expires)];
      nextReservation := nextReservation + 1;
    }

    method UpdateOrderReservationStatus(f: Where, status: ReservationStatus) returns (changed: nat)
      modifies this
      ensures State() == old(State()).(reservations := SetStatus(old(reservations), f, status))
      ensures changed == Selected(old(reservations), f)
    {
      hide Selects;
      ghost var before := reservations;
      changed := 0;
      for i := 0 to |reservations|
        invariant State() == old(State()).(reservations := reservations)
        invariant |reservations| == |before|
        invariant forall j | 0 <= j < i :: reservations[j] == SetStatus(before, f, status)[j]
        invariant forall j | i <= j < |before| :: reservations[j] == before[j]
        invariant changed == Selected(before[..i], f)
      {
        assert before[..i + 1][..i] == before[..i];
        if Selects(f, reservations[i]) {
          reservations := reservations[i := reservations[i].(status := status)];
          changed := changed + 1;
        }
      }
      assert before[..|before|] == before;
    }

    method FinalizeEntryLifecycle(positionId: int, status: ReservationStatus, now: int)
      returns (ok: bool, ghost chosen: int)
      modifies this
      ensures var row := PositionRow(old(positions), positionId);
              ok == (row >= 0 && Active(old(positions)[row].status))
      ensures !ok ==> State() == old(State())
      ensures ok ==> var p := old(positions)[PositionRow(old(positions), positionId)];
                     && EntryChoice(old(slots), p, chosen)
                     && -1 <= chosen < |old(slots)|
                     && State() == Finalized(old(State()), p, chosen, status, now)
    {
      chosen := -1;
      var row := PositionRow(positions, positionId);
      if row < 0 || !Active(positions[row].status) {
        return false, -1;
      }
      var p := positions[row];
      ok := true;
      var i := FirstByRank(slots, SessionMatch(p));
      if i < 0 {
        i := FirstByRank(slots, PositionMatch(p));
      }
      if i < 0 {
        i := HolderOf(slots, p.id);
      }
      chosen := i;
      var slot := -1;
      if i >= 0 {
        slot := slots[i].id;
        slots := slots[i := EntryFilled(slots[i], p, now)];
      }
      ConsumeReservations(p, slot, status);
    }

    method ConsumeReservations(p: Position, slot: int, status: ReservationStatus)
      modifies this`reservations
      ensures State() == old(State()).(reservations := ConsumeAll(old(reservations), p, slot, status))
    {
      ghost var before := reservations;
      for j := 0 to |reservations|
        invariant |reservations| == |before|
        invariant forall k | 0 <= k < j :: reservations[k] == ConsumeOne(before[k], p, slot, status)
        invariant forall k | j <= k < |before| :: reservations[k] == before[k]
      {
        reservations := reservations[j := ConsumeOne(reservations[j], p, slot, status)];
      }
    }
  }

  // A matching row of the smallest rank, or -1.
  method FirstByRank(slots: seq<Slot>, matches: Slot -> bool) returns (i: int)
    ensures i == -1 || Picks(slots, matches, i)
    ensures i == -1 <==> NoRow(slots, matches)
  {
    i := -1;
    for j := 0 to |slots|
      invariant i == -1 || Picks(slots[..j], matches, i)
      invariant i == -1 <==> NoRow(slots[..j], matches)
    {
      if matches(slots[j]) && (i < 0 || Rank(slots[j].status) < Rank(slots[i].status)) {
        i := j;
      }
    }
    assert slots[..|slots|] == slots;
  }
}
