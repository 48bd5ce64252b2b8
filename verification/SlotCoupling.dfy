/** The coupling between RESERVED slots and live reservations over every run of
    reserve, replace, status updates, reconcile and finalise. */
module SlotCoupling {
  import opened KeySort
  import opened SlotTables
  import opened SlotReconcile

  // Reservation r backs slot s with the same market, candidate and amount.
  predicate Matches(s: Slot, r: Reservation) {
    r.slot == s.id && r.market == s.market && r.candidate == s.candidate && r.amount == s.reserved
  }

  // Every live reservation belongs to one RESERVED slot, and no two to the same.
  predicate Linked(t: Tables) {
    && (forall j | 0 <= j < |t.reservations| && Live(t.reservations[j]) ::
          exists i :: 0 <= i < |t.slots| && t.slots[i].status.Reserved? && Matches(t.slots[i], t.reservations[j]))
    && (forall j, k | 0 <= j < k < |t.reservations| && Live(t.reservations[j]) && Live(t.reservations[k]) ::
          t.reservations[j].slot != t.reservations[k].slot)
    && (forall j | 0 <= j < |t.reservations| :: !t.reservations[j].status.Pending?)
  }

  predicate HasLive(rs: seq<Reservation>, slot: int) {
    exists j :: 0 <= j < |rs| && Live(rs[j]) && rs[j].slot == slot
  }

  // ... and every RESERVED slot has its live reservation.
  predicate Coupled(t: Tables) {
    && Linked(t)
    && forall i | 0 <= i < |t.slots| && t.slots[i].status.Reserved? :: HasLive(t.reservations, t.slots[i].id)
  }

  // RESERVED slots are for different markets.
  predicate DistinctReserved(slots: seq<Slot>) {
    forall i, j | 0 <= i < j < |slots| && slots[i].status.Reserved? && slots[j].status.Reserved? ::
      slots[i].market != slots[j].market
  }

  predicate Invariant(t: Tables) {
    WellFormed(t) && Linked(t) && DistinctReserved(t.slots)
  }

  // ----- the two sums

  function LiveAmount(rs: seq<Reservation>): real {
    if rs == [] then 0.0
    else LiveAmount(rs[1..]) + if Live(rs[0]) then rs[0].amount else 0.0
  }

  function ReservedKrw(slots: seq<Slot>): real {
    if slots == [] then 0.0
    else ReservedKrw(slots[1..]) + if slots[0].status.Reserved? then slots[0].reserved else 0.0
  }

  // The live amount booked on one slot, and on a list of slots.
  function AmountOn(rs: seq<Reservation>, slot: int): real {
    if rs == [] then 0.0
    else AmountOn(rs[1..], slot) + if Live(rs[0]) && rs[0].slot == slot then rs[0].amount else 0.0
  }

  function AmountOnAll(rs: seq<Reservation>, slots: seq<Slot>): real {
    if slots == [] then 0.0 else AmountOn(rs, slots[0].id) + AmountOnAll(rs, slots[1..])
  }

  lemma {:induction false} AmountOnNone(rs: seq<Reservation>, slot: int)
    requires forall j | 0 <= j < |rs| && Live(rs[j]) :: rs[j].slot != slot
    ensures AmountOn(rs, slot) == 0.0
  {
    if rs != [] {
      AmountOnNone(rs[1..], slot);
    }
  }

  lemma {:induction false} AmountOnOne(rs: seq<Reservation>, j: nat)
    requires j < |rs| && Live(rs[j])
    requires forall i | 0 <= i < |rs| && i != j && Live(rs[i]) :: rs[i].slot != rs[j].slot
    ensures AmountOn(rs, rs[j].slot) == rs[j].amount
  {
    if j == 0 {
      AmountOnNone(rs[1..], rs[0].slot);
    } else {
      AmountOnOne(rs[1..], j - 1);
    }
  }

  lemma {:induction false} SlotSideSum(rs: seq<Reservation>, slots: seq<Slot>)
    requires forall i | 0 <= i < |slots| :: AmountOn(rs, slots[i].id) == if slots[i].status.Reserved? then slots[i].reserved else 0.0
    ensures AmountOnAll(rs, slots) == ReservedKrw(slots)
  {
    if slots != [] {
      SlotSideSum(rs, slots[1..]);
    }
  }

  lemma {:induction false} NothingBooked(slots: seq<Slot>)
    ensures AmountOnAll([], slots) == 0.0
  {
    if slots != [] {
      NothingBooked(slots[1..]);
    }
  }

  lemma {:induction false} OneMoreBooked(r: Reservation, rest: seq<Reservation>, slots: seq<Slot>)
    requires forall i, j | 0 <= i < j < |slots| :: slots[i].id != slots[j].id
    ensures AmountOnAll([r] + rest, slots)
         == AmountOnAll(rest, slots)
          + if Live(r) && (exists i :: 0 <= i < |slots| && slots[i].id == r.slot) then r.amount else 0.0
  {
    if slots != [] {
      OneMoreBooked(r, rest, slots[1..]);
      assert ([r] + rest)[1..] == rest;
      if exists i :: 0 <= i < |slots[1..]| && slots[1..][i].id == r.slot {
        var i :| 0 <= i < |slots[1..]| && slots[1..][i].id == r.slot;
        assert slots[i + 1].id == r.slot;
      }
    }
  }

  lemma {:induction false} ReservationSideSum(rs: seq<Reservation>, slots: seq<Slot>)
    requires forall i, j | 0 <= i < j < |slots| :: slots[i].id != slots[j].id
    requires forall j | 0 <= j < |rs| && Live(rs[j]) :: exists i :: 0 <= i < |slots| && slots[i].id == rs[j].slot
    ensures AmountOnAll(rs, slots) == LiveAmount(rs)
  {
    if rs == [] {
      NothingBooked(slots);
    } else {
      ReservationSideSum(rs[1..], slots);
      OneMoreBooked(rs[0], rs[1..], slots);
      assert [rs[0]] + rs[1..] == rs;
    }
  }

  lemma CoupledAmount(t: Tables, i: nat)
    requires WellFormed(t) && Coupled(t) && i < |t.slots|
    ensures AmountOn(t.reservations, t.slots[i].id) == if t.slots[i].status.Reserved? then t.slots[i].reserved else 0.0
  {
    var s, rs := t.slots[i], t.reservations;
    if s.status.Reserved? {
      var j :| 0 <= j < |rs| && Live(rs[j]) && rs[j].slot == s.id;
      var k :| 0 <= k < |t.slots| && t.slots[k].status.Reserved? && Matches(t.slots[k], rs[j]);
      assert k == i;
      AmountOnOne(rs, j);
    } else {
      AmountOnNone(rs, s.id);
    }
  }

  // What is promised to live reservations is what the RESERVED slots show.
  lemma CoupledSumsAgree(t: Tables)
    requires WellFormed(t) && Coupled(t)
    ensures LiveAmount(t.reservations) == ReservedKrw(t.slots)
  {
    forall i | 0 <= i < |t.slots|
      ensures AmountOn(t.reservations, t.slots[i].id) == if t.slots[i].status.Reserved? then t.slots[i].reserved else 0.0
    {
      CoupledAmount(t, i);
    }
    SlotSideSum(t.reservations, t.slots);
    ReservationSideSum(t.reservations, t.slots);
  }

  // Each RESERVED slot has exactly one live reservation, and it matches.
  lemma CoupledIsOneToOne(t: Tables, i: nat)
    requires WellFormed(t) && Coupled(t) && i < |t.slots| && t.slots[i].status.Reserved?
    ensures exists j :: 0 <= j < |t.reservations| && Live(t.reservations[j]) && Matches(t.slots[i], t.reservations[j])
              && forall k | 0 <= k < |t.reservations| && Live(t.reservations[k]) && t.reservations[k].slot == t.slots[i].id :: k == j
  {
    var j :| 0 <= j < |t.reservations| && Live(t.reservations[j]) && t.reservations[j].slot == t.slots[i].id;
    var k :| 0 <= k < |t.slots| && t.slots[k].status.Reserved? && Matches(t.slots[k], t.reservations[j]);
    assert k == i;
  }

  // ----- reconcile

  lemma ReconcileRows(t: Tables, max: int, now: int)
    requires WellFormed(t)
    ensures var e, after := Ensure(t, AtLeastOne(max)), Reconciled(t, max, now);
            && t.slots <= e.slots && |after.slots| == |e.slots|
            && after.reservations == ExpireAll(t.reservations, now)
            && (forall i | 0 <= i < |after.slots| && after.slots[i].status.Reserved? ::
                  i < |t.slots| && after.slots[i] == t.slots[i] && Backed(after.reservations, after.slots[i].id, now))
            && (forall i | 0 <= i < |t.slots| && t.slots[i].status.Reserved? && Backed(after.reservations, t.slots[i].id, now) ::
                  after.slots[i] == t.slots[i])
  {
    var e := Ensure(t, AtLeastOne(max));
    EnsureKeeps(t, AtLeastOne(max));
    var rs := ExpireAll(e.reservations, now);
    ReleaseKeeps(e, rs, now);
    QueueMembers(e.positions);
    QueueDistinct(e.positions);
    var queue, released := Queue(e.positions), ReleaseSlots(e.slots, rs, ActiveIds(e.positions), now);
    PlaceAllKeeps(released, queue, max);
    var after := Reconciled(t, max, now);
    hide PlaceAll;
    hide Ensure;
    hide Queue;
    forall i | 0 <= i < |after.slots| && after.slots[i].status.Reserved?
      ensures i < |t.slots| && after.slots[i] == t.slots[i] && Backed(rs, after.slots[i].id, now)
    {
      assert after.slots[i] == released[i];
      assert released[i] == e.slots[i];
    }
    forall i | 0 <= i < |t.slots| && t.slots[i].status.Reserved? && Backed(rs, t.slots[i].id, now)
      ensures after.slots[i] == t.slots[i]
    {
      assert e.slots[i] == t.slots[i];
      assert released[i] == e.slots[i];
      assert CleanRow(released[i]);
    }
  }

  // Each live reservation afterwards still backs its slot.
  lemma ReconcileLinks(t: Tables, max: int, now: int)
    requires Invariant(t)
    ensures Linked(Reconciled(t, max, now))
  {
    ReconcileRows(t, max, now);
    var after := Reconciled(t, max, now);
    hide Reconciled;
    hide WellFormed;
    hide DistinctReserved;
    var rs := after.reservations;
    forall j | 0 <= j < |rs| && Live(rs[j])
      ensures exists i :: 0 <= i < |after.slots| && after.slots[i].status.Reserved? && Matches(after.slots[i], rs[j])
    {
      assert rs[j] == t.reservations[j] && !Past(rs[j].expires, now);
      var i :| 0 <= i < |t.slots| && t.slots[i].status.Reserved? && Matches(t.slots[i], t.reservations[j]);
      assert Backed(rs, t.slots[i].id, now);
      assert after.slots[i] == t.slots[i];
    }
  }

  // Reconciliation restores the full coupling from the weaker link.
  lemma ReconcileCouples(t: Tables, max: int, now: int)
    requires Invariant(t)
    ensures Invariant(Reconciled(t, max, now)) && Coupled(Reconciled(t, max, now))
  {
    ReconcileKeepsWellFormed(t, max, now);
    ReconcileLinks(t, max, now);
    ReconcileRows(t, max, now);
    var after := Reconciled(t, max, now);
    hide Reconciled;
    hide WellFormed;
    hide Linked;
    var rs := after.reservations;
    forall i | 0 <= i < |after.slots| && after.slots[i].status.Reserved? ensures HasLive(rs, after.slots[i].id) {
      var j :| 0 <= j < |rs| && rs[j].slot == after.slots[i].id && Live(rs[j]) && !Past(rs[j].expires, now);
    }
  }

  // ----- reserve and replace

  function IndexOf(slots: seq<Slot>, id: int): (i: int)
    ensures -1 <= i < |slots|
    ensures i >= 0 ==> slots[i].id == id
    ensures i < 0 ==> forall j | 0 <= j < |slots| :: slots[j].id != id
  {
    if slots == [] then -1
    else if slots[0].id == id then 0
    else
      var i := IndexOf(slots[1..], id);
      if i < 0 then -1 else i + 1
  }

  datatype Entry = Entry(market: string, candidate: int, session: int, amount: real, expires: Expiry)

  // The allocator's two steps for an empty slot.
  function ReserveEmpty(t: Tables, slot: int, e: Entry, now: int): Tables {
    var b := WithReservation(t, e.market, e.candidate, slot, e.amount, Held, e.expires);
    b.(slots := ReserveSlot(b.slots, slot, e.market, e.candidate, e.session, e.amount, now))
  }

  // The allocator's three steps for a slot row s reserved by another candidate.
  function ReplaceReserved(t: Tables, s: Slot, e: Entry, now: int): Tables {
    var released := if s.candidate != 0
                    then t.(reservations := SetStatus(t.reservations, Where(s.candidate, e.market, {Held}), Replaced))
                    else t;
    ReserveEmpty(released, s.id, e, now)
  }

  predicate FreshMarket(slots: seq<Slot>, market: string) {
    forall j | 0 <= j < |slots| && slots[j].status.Reserved? :: slots[j].market != market
  }

  lemma ReserveRow(t: Tables, i: nat, e: Entry, now: int)
    requires DistinctSlots(t.slots) && i < |t.slots|
    ensures ReserveEmpty(t, t.slots[i].id, e, now).slots
         == t.slots[i := ReservedSlot(t.slots[i], e.market, e.candidate, e.session, e.amount, now)]
    ensures ReserveEmpty(t, t.slots[i].id, e, now).reservations
         == t.reservations + [Reservation(t.nextReservation, e.market, e.candidate, t.slots[i].id, e.amount, Held, e.expires)]
  {
  }

  // Common to reserving and replacing: a slot without a position and, by now,
  // without a live reservation takes the entry.
  lemma TakeSlot(t: Tables, i: nat, e: Entry, now: int)
    requires WellFormed(t) && i < |t.slots| && t.slots[i].position == 0
    requires forall j | 0 <= j < |t.reservations| && Live(t.reservations[j]) ::
               exists k :: 0 <= k < |t.slots| && k != i && t.slots[k].status.Reserved? && Matches(t.slots[k], t.reservations[j])
    requires forall j, k | 0 <= j < k < |t.reservations| && Live(t.reservations[j]) && Live(t.reservations[k]) ::
               t.reservations[j].slot != t.reservations[k].slot
    requires forall j | 0 <= j < |t.reservations| :: !t.reservations[j].status.Pending?
    requires forall k | 0 <= k < |t.slots| && k != i && t.slots[k].status.Reserved? :: t.slots[k].market != e.market
    requires DistinctReserved(t.slots)
    ensures Invariant(ReserveEmpty(t, t.slots[i].id, e, now))
    ensures (forall k | 0 <= k < |t.slots| && k != i && t.slots[k].status.Reserved? :: HasLive(t.reservations, t.slots[k].id))
            ==> Coupled(ReserveEmpty(t, t.slots[i].id, e, now))
  {
    ReserveRow(t, i, e, now);
    var after := ReserveEmpty(t, t.slots[i].id, e, now);
    hide ReserveEmpty;
    var n := |t.reservations|;
    forall j | 0 <= j < |after.reservations| && Live(after.reservations[j])
      ensures exists k :: 0 <= k < |after.slots| && after.slots[k].status.Reserved? && Matches(after.slots[k], after.reservations[j])
    {
      if j < n {
        var k :| 0 <= k < |t.slots| && k != i && t.slots[k].status.Reserved? && Matches(t.slots[k], t.reservations[j]);
        assert after.slots[k] == t.slots[k];
      } else {
        assert Matches(after.slots[i], after.reservations[j]);
      }
    }
    forall k | 0 <= k < |after.slots| && after.slots[k].status.Reserved?
               && (k == i || HasLive(t.reservations, t.slots[k].id))
      ensures HasLive(after.reservations, after.slots[k].id)
    {
      if k == i {
        assert Live(after.reservations[n]);
      } else {
        var j :| 0 <= j < n && Live(t.reservations[j]) && t.reservations[j].slot == t.slots[k].id;
        assert after.reservations[j] == t.reservations[j];
      }
    }
  }

  lemma ReserveKeeps(t: Tables, i: nat, e: Entry, now: int)
    requires Invariant(t) && i < |t.slots| && t.slots[i].status.Empty? && FreshMarket(t.slots, e.market)
    ensures Invariant(ReserveEmpty(t, t.slots[i].id, e, now))
    ensures Coupled(t) ==> Coupled(ReserveEmpty(t, t.slots[i].id, e, now))
  {
    forall j | 0 <= j < |t.reservations| && Live(t.reservations[j])
      ensures exists k :: 0 <= k < |t.slots| && k != i && t.slots[k].status.Reserved? && Matches(t.slots[k], t.reservations[j])
    {
      var k :| 0 <= k < |t.slots| && t.slots[k].status.Reserved? && Matches(t.slots[k], t.reservations[j]);
      assert k != i;
    }
    TakeSlot(t, i, e, now);
  }

  predicate HeldOnly(rs: seq<Reservation>, slot: int) {
    forall j | 0 <= j < |rs| && Live(rs[j]) && rs[j].slot == slot :: rs[j].status.Held?
  }

  lemma ReplaceKeeps(t: Tables, i: nat, e: Entry, now: int)
    requires Invariant(t) && i < |t.slots| && t.slots[i].status.Reserved?
    requires t.slots[i].market == e.market != "" && t.slots[i].candidate != 0
    requires HeldOnly(t.reservations, t.slots[i].id)
    ensures Invariant(ReplaceReserved(t, t.slots[i], e, now))
    ensures Coupled(t) ==> Coupled(ReplaceReserved(t, t.slots[i], e, now))
  {
    var rs := SetStatus(t.reservations, Where(t.slots[i].candidate, e.market, {Held}), Replaced);
    hide SetStatus;
    var released := t.(reservations := rs);
    forall j | 0 <= j < |rs| && Live(rs[j])
      ensures exists k :: 0 <= k < |t.slots| && k != i && t.slots[k].status.Reserved? && Matches(t.slots[k], rs[j])
    {
      assert rs[j] == t.reservations[j];
      var k :| 0 <= k < |t.slots| && t.slots[k].status.Reserved? && Matches(t.slots[k], t.reservations[j]);
      assert k != i;
    }
    forall k | 0 <= k < |t.slots| && k != i && HasLive(t.reservations, t.slots[k].id)
      ensures HasLive(rs, t.slots[k].id)
    {
      var j :| 0 <= j < |rs| && Live(t.reservations[j]) && t.reservations[j].slot == t.slots[k].id;
      assert rs[j] == t.reservations[j];
    }
    TakeSlot(released, i, e, now);
  }

  // Replacing keeps the coupling exactly when the old entry has not been submitted:
  // the status update only looks for reservations that are still RESERVED.
  lemma ReplaceKeepsCouplingExactlyWhenHeld(t: Tables, i: nat, e: Entry, now: int)
    requires Invariant(t) && Coupled(t) && i < |t.slots| && t.slots[i].status.Reserved?
    requires t.slots[i].market == e.market != ""
    ensures Coupled(ReplaceReserved(t, t.slots[i], e, now))
       <==> t.slots[i].candidate != 0 && HeldOnly(t.reservations, t.slots[i].id)
  {
    if t.slots[i].candidate != 0 && HeldOnly(t.reservations, t.slots[i].id) {
      ReplaceKeeps(t, i, e, now);
    } else {
      var after := ReplaceReserved(t, t.slots[i], e, now);
      assert HasLive(t.reservations, t.slots[i].id);
      var j: int;
      if t.slots[i].candidate == 0 {
        j :| 0 <= j < |t.reservations| && Live(t.reservations[j]) && t.reservations[j].slot == t.slots[i].id;
      } else {
        j :| 0 <= j < |t.reservations| && Live(t.reservations[j]) && t.reservations[j].slot == t.slots[i].id
             && !t.reservations[j].status.Held?;
      }
      var n := |t.reservations|;
      assert after.reservations[j] == t.reservations[j];
      assert Live(after.reservations[n]) && after.reservations[n].slot == t.slots[i].id;
    }
  }

  // It can fail: one slot whose only reservation has been submitted.
  lemma SubmittedEntryBreaksCoupling(t: Tables, e: Entry, now: int)
    requires t == Tables([Slot(1, 1, Reserved, "KRW-BTC", 7, 0, 3, 100.0, 100.0, 0.0, 0.0, 0.0, 0, 0)],
                         [Reservation(1, "KRW-BTC", 7, 1, 100.0, OrderSubmitted, Never)], [], 2, 2)
    requires e.market == "KRW-BTC"
    ensures Invariant(t) && Coupled(t)
    ensures !Coupled(ReplaceReserved(t, t.slots[0], e, now))
  {
    assert t.slots[0].status.Reserved? && Matches(t.slots[0], t.reservations[0]);
    assert Live(t.reservations[0]) && t.reservations[0].slot == t.slots[0].id;
    ReplaceKeepsCouplingExactlyWhenHeld(t, 0, e, now);
  }

  // ----- status updates

  predicate LiveStatus(s: ReservationStatus) { s.Held? || s.OrderSubmitted? }

  // A status update never revives a closed reservation.
  predicate Forward(w: Where, to: ReservationStatus) {
    !to.Pending? && (LiveStatus(to) ==> w.previous <= {Pending, Held, OrderSubmitted})
  }

  lemma SetStatusKeeps(t: Tables, w: Where, to: ReservationStatus)
    requires Invariant(t) && Forward(w, to)
    ensures Invariant(t.(reservations := SetStatus(t.reservations, w, to)))
    ensures LiveStatus(to) && Coupled(t) ==> Coupled(t.(reservations := SetStatus(t.reservations, w, to)))
  {
    var rs := SetStatus(t.reservations, w, to);
    forall j | 0 <= j < |rs|
      ensures rs[j] == t.reservations[j].(status := rs[j].status)
      ensures Live(rs[j]) ==> Live(t.reservations[j])
      ensures LiveStatus(to) && Live(t.reservations[j]) ==> Live(rs[j])
      ensures !rs[j].status.Pending?
    {
      assert rs[j] == if Selects(w, t.reservations[j]) then t.reservations[j].(status := to) else t.reservations[j];
    }
    hide SetStatus;
    hide WellFormed;
    hide DistinctReserved;
    forall j | 0 <= j < |rs| && Live(rs[j])
      ensures exists i :: 0 <= i < |t.slots| && t.slots[i].status.Reserved? && Matches(t.slots[i], rs[j])
    {
      var i :| 0 <= i < |t.slots| && t.slots[i].status.Reserved? && Matches(t.slots[i], t.reservations[j]);
      assert Matches(t.slots[i], rs[j]);
    }
    if LiveStatus(to) && Coupled(t) {
      forall i | 0 <= i < |t.slots| && t.slots[i].status.Reserved? ensures HasLive(rs, t.slots[i].id) {
        var j :| 0 <= j < |t.reservations| && Live(t.reservations[j]) && t.reservations[j].slot == t.slots[i].id;
        assert Live(rs[j]) && rs[j].slot == t.slots[i].id;
      }
    }
  }

  // ----- finalise

  predicate OnlyHolder(slots: seq<Slot>, position: int, i: int) {
    forall k | 0 <= k < |slots| && k != i :: slots[k].position != position
  }

  // A finalised entry keeps positions in one slot each exactly when no other slot
  // already shows the position.
  lemma FinalizeInjectiveExactlyWhen(t: Tables, p: Position, i: nat, status: ReservationStatus, now: int)
    requires WellFormed(t) && p.id > 0 && i < |t.slots|
    ensures Injective(Finalized(t, p, i, status, now).slots) <==> OnlyHolder(t.slots, p.id, i)
  {
    var after := Finalized(t, p, i, status, now).slots;
    assert after[i].position == p.id;
    if !OnlyHolder(t.slots, p.id, i) {
      var k :| 0 <= k < |t.slots| && k != i && t.slots[k].position == p.id;
      assert after[k] == t.slots[k];
    }
  }

  // It fails whenever a reconciliation has placed the position while the slot reserved
  // for its entry is still backed: finalising then prefers that slot.
  lemma FinalizeAfterReconcileDuplicates(t: Tables, max: int, now: int, p: Position, i: nat, status: ReservationStatus)
    requires Invariant(t) && p in t.positions && Active(p.status) && i < |t.slots|
    requires t.slots[i].status.Reserved? && Backed(ExpireAll(t.reservations, now), t.slots[i].id, now)
    requires t.slots[i].market == p.market && t.slots[i].candidate == p.candidate && t.slots[i].session == p.session
    requires Holds(Reconciled(t, max, now).slots, p.id)
    ensures var after := Reconciled(t, max, now);
            && i < |after.slots| && EntryChoice(after.slots, p, i)
            && !Injective(Finalized(after, p, i, status, now).slots)
  {
    hide Reconciled;
    hide EntryChoice;
    hide Injective;
    hide Finalized;
    hide Holds;
    hide HolderOf;
    ReconcileRows(t, max, now);
    ReconcileKeepsWellFormed(t, max, now);
    var after := Reconciled(t, max, now);
    assert CleanRow(t.slots[i]);
    ReservedIsChosen(after.slots, p, i);
    HoldsMeans(after.slots, p.id);
    hide WellFormed;
    FinalizeInjectiveExactlyWhen(after, p, i, status, now);
  }

  lemma ReservedIsChosen(slots: seq<Slot>, p: Position, i: nat)
    requires i < |slots| && slots[i].status.Reserved? && slots[i].position == 0
    requires slots[i].market == p.market && slots[i].candidate == p.candidate && slots[i].session == p.session
    ensures EntryChoice(slots, p, i)
  {
    assert PositionMatch(p)(slots[i]) && (p.session != 0 ==> SessionMatch(p)(slots[i]));
  }

  lemma FinalizeKeepsRows(t: Tables, p: Position, i: int, status: ReservationStatus, now: int)
    requires WellFormed(t) && DistinctReserved(t.slots) && Active(p.status) && p.id > 0
    requires -1 <= i < |t.slots| && OnlyHolder(t.slots, p.id, i)
    ensures var after := Finalized(t, p, i, status, now);
            && WellFormed(after) && DistinctReserved(after.slots) && |after.slots| == |t.slots|
            && (forall k | 0 <= k < |t.slots| && k != i :: after.slots[k] == t.slots[k])
            && (i >= 0 ==> Active(after.slots[i].status))
  {
    var after := Finalized(t, p, i, status, now);
    if i >= 0 {
      assert CleanRow(t.slots[i]);
    }
  }

  // A reservation still live afterwards backs a slot other than the chosen one.
  lemma StillLive(t: Tables, p: Position, i: int, j: nat, status: ReservationStatus)
    returns (k: nat)
    requires Invariant(t) && p.id > 0 && -1 <= i < |t.slots| && EntryChoice(t.slots, p, i)
    requires j < |t.reservations| && !LiveStatus(status)
    requires Live(ConsumeOne(t.reservations[j], p, if i >= 0 then t.slots[i].id else -1, status))
    ensures Live(t.reservations[j])
    ensures k < |t.slots| && k != i && t.slots[k].status.Reserved? && Matches(t.slots[k], t.reservations[j])
  {
    k :| 0 <= k < |t.slots| && t.slots[k].status.Reserved? && Matches(t.slots[k], t.reservations[j]);
    if k == i {
    }
  }

  lemma FinalizeKeepsLinked(t: Tables, p: Position, i: int, status: ReservationStatus, now: int)
    requires Invariant(t) && Active(p.status) && p.id > 0
    requires -1 <= i < |t.slots| && EntryChoice(t.slots, p, i) && OnlyHolder(t.slots, p.id, i)
    requires !LiveStatus(status) && !status.Pending?
    ensures Linked(Finalized(t, p, i, status, now))
  {
    var after := Finalized(t, p, i, status, now);
    var rs, rs' := t.reservations, after.reservations;
    var slot := if i >= 0 then t.slots[i].id else -1;
    FinalizeKeepsRows(t, p, i, status, now);
    assert |rs'| == |rs| && forall j | 0 <= j < |rs| :: rs'[j] == ConsumeOne(rs[j], p, slot, status);
    hide Finalized;
    hide WellFormed;
    hide DistinctReserved;
    hide EntryChoice;
    hide OnlyHolder;
    forall j | 0 <= j < |rs| && Live(rs'[j])
      ensures Live(rs[j]) && rs'[j] == rs[j]
      ensures exists k :: 0 <= k < |after.slots| && after.slots[k].status.Reserved? && Matches(after.slots[k], rs'[j])
    {
      var k := StillLive(t, p, i, j, status);
      assert after.slots[k] == t.slots[k];
    }
  }

  lemma FinalizeKeeps(t: Tables, p: Position, i: int, status: ReservationStatus, now: int)
    requires Invariant(t) && Active(p.status) && p.id > 0
    requires -1 <= i < |t.slots| && EntryChoice(t.slots, p, i) && OnlyHolder(t.slots, p.id, i)
    requires !LiveStatus(status) && !status.Pending?
    ensures Invariant(Finalized(t, p, i, status, now))
    ensures Coupled(t) ==> Coupled(Finalized(t, p, i, status, now))
  {
    FinalizeKeepsRows(t, p, i, status, now);
    FinalizeKeepsLinked(t, p, i, status, now);
    if Coupled(t) {
      var after := Finalized(t, p, i, status, now);
      var rs, rs' := t.reservations, after.reservations;
      var slot := if i >= 0 then t.slots[i].id else -1;
      assert |rs'| == |rs| && forall j | 0 <= j < |rs| :: rs'[j] == ConsumeOne(rs[j], p, slot, status);
      hide Finalized;
      hide WellFormed;
      hide EntryChoice;
      forall k | 0 <= k < |after.slots| && after.slots[k].status.Reserved? ensures HasLive(rs', after.slots[k].id) {
        assert HasLive(rs, t.slots[k].id);
        var j :| 0 <= j < |rs| && Live(rs[j]) && rs[j].slot == t.slots[k].id;
        NotConsumed(t, p, i, k, j);
        assert rs'[j] == rs[j];
      }
    }
  }

  // A reservation that backs another slot is left alone.
  lemma NotConsumed(t: Tables, p: Position, i: int, k: nat, j: nat)
    requires Invariant(t) && p.id > 0 && -1 <= i < |t.slots| && EntryChoice(t.slots, p, i)
    requires k < |t.slots| && k != i && j < |t.reservations| && Live(t.reservations[j]) && t.reservations[j].slot == t.slots[k].id
    ensures !(t.reservations[j].market == p.market && t.reservations[j].candidate == p.candidate
              && (i < 0 || t.reservations[j].slot == t.slots[i].id || t.reservations[j].slot == 0))
  {
    assert CleanRow(t.slots[k]);
    if t.reservations[j].market == p.market && t.reservations[j].candidate == p.candidate {
    }
  }

  // ----- runs

  datatype Op = Reserve(index: nat, entry: Entry, at: int)
              | Replace(index: nat, entry: Entry, at: int)
              | Update(where_: Where, to: ReservationStatus)
              | Reconcile(max: int, at: int)
              | Finalize(position: Position, chosen: int, closing: ReservationStatus, at: int)
              | PositionsBecome(positions: seq<Position>)

  // What the callers of each step check first.
  predicate Enabled(t: Tables, op: Op) {
    match op
    case Reserve(i, e, _) => i < |t.slots| && t.slots[i].status.Empty? && FreshMarket(t.slots, e.market)
    case Replace(i, e, _) =>
      && i < |t.slots| && t.slots[i].status.Reserved? && t.slots[i].market == e.market != ""
      && t.slots[i].candidate != 0 && HeldOnly(t.reservations, t.slots[i].id)
    case Update(w, to) => Forward(w, to)
    case Reconcile(_, _) => true
    case Finalize(p, i, closing, _) =>
      && Active(p.status) && p.id > 0 && -1 <= i < |t.slots| && EntryChoice(t.slots, p, i)
      && OnlyHolder(t.slots, p.id, i) && !LiveStatus(closing) && !closing.Pending?
    case PositionsBecome(ps) => DistinctPositions(ps)
  }

  function Apply(t: Tables, op: Op): Tables
    requires Enabled(t, op)
  {
    match op
    case Reserve(i, e, now) => ReserveEmpty(t, t.slots[i].id, e, now)
    case Replace(i, e, now) => ReplaceReserved(t, t.slots[i], e, now)
    case Update(w, to) => t.(reservations := SetStatus(t.reservations, w, to))
    case Reconcile(max, now) => Reconciled(t, max, now)
    case Finalize(p, i, closing, now) => Finalized(t, p, i, closing, now)
    case PositionsBecome(ps) => t.(positions := ps)
  }

  const INITIAL := Tables([], [], [], 1, 1)

  // The tables before and after each step of a run that starts empty.
  predicate IsRun(states: seq<Tables>, ops: seq<Op>) {
    && |states| == |ops| + 1 && states[0] == INITIAL
    && forall i | 0 <= i < |ops| :: Enabled(states[i], ops[i]) && states[i + 1] == Apply(states[i], ops[i])
  }

  lemma StepKeeps(t: Tables, op: Op)
    requires Invariant(t) && Enabled(t, op)
    ensures Invariant(Apply(t, op))
    ensures Coupled(t) && (op.Update? ==> LiveStatus(op.to)) ==> Coupled(Apply(t, op))
    ensures op.Reconcile? ==> Coupled(Apply(t, op))
  {
    match op
    case Reserve(i, e, now) => ReserveKeeps(t, i, e, now);
    case Replace(i, e, now) => ReplaceKeeps(t, i, e, now);
    case Update(w, to) => SetStatusKeeps(t, w, to);
    case Reconcile(max, now) => ReconcileCouples(t, max, now);
    case Finalize(p, i, closing, now) => FinalizeKeeps(t, p, i, closing, now);
    case PositionsBecome(ps) =>
  }

  // No update closes a reservation outside reconcile, replace and finalise.
  predicate OnlyLiveUpdates(ops: seq<Op>) {
    forall i | 0 <= i < |ops| && ops[i].Update? :: LiveStatus(ops[i].to)
  }

  lemma InitialIsCoupled()
    ensures Invariant(INITIAL) && Coupled(INITIAL)
  {
  }

  lemma CoupledInvariantSums(t: Tables)
    requires Invariant(t) && Coupled(t)
    ensures LiveAmount(t.reservations) == ReservedKrw(t.slots)
  {
    CoupledSumsAgree(t);
  }

  // Over every run: the tables stay linked, and coupled as long as no outside update
  // closes a reservation; a reconciliation couples them again in any case.
  lemma {:induction false} RunsStayCoupled(states: seq<Tables>, ops: seq<Op>, n: nat)
    requires IsRun(states, ops) && n <= |ops|
    ensures Invariant(states[n])
    ensures OnlyLiveUpdates(ops[..n]) || (n > 0 && ops[n - 1].Reconcile?)
            ==> Coupled(states[n]) && LiveAmount(states[n].reservations) == ReservedKrw(states[n].slots)
  {
    hide Invariant;
    hide Coupled;
    hide Enabled;
    hide Apply;
    hide LiveAmount;
    hide ReservedKrw;
    InitialIsCoupled();
    if n > 0 {
      RunsStayCoupled(states, ops, n - 1);
      StepKeeps(states[n - 1], ops[n - 1]);
      if OnlyLiveUpdates(ops[..n]) {
        assert ops[..n][n - 1] == ops[n - 1];
        assert forall i | 0 <= i < n - 1 :: ops[..n - 1][i] == ops[..n][i];
      }
    }
    if Coupled(states[n]) {
      CoupledInvariantSums(states[n]);
    }
  }
}
