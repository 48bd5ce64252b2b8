/** What one reconciliation of the slots keeps, how far it places, and that running
    it again changes nothing. */
module SlotReconcile {
  import opened KeySort
  import opened SlotTables

  predicate DistinctSlots(slots: seq<Slot>) {
    forall i, j | 0 <= i < j < |slots| :: slots[i].id != slots[j].id && slots[i].number != slots[j].number
  }

  // No position sits in two slots.
  predicate Injective(slots: seq<Slot>) {
    forall i, j | 0 <= i < j < |slots| && slots[i].position != 0 :: slots[i].position != slots[j].position
  }

  // A slot that is EMPTY carries nothing; a RESERVED one has no position yet.
  predicate CleanRow(s: Slot) {
    && (s.status.Empty? ==> s.position == 0 && s.market == "" && s.reserved == 0.0)
    && (s.status.Reserved? ==> s.position == 0)
    && (!s.status.Reserved? ==> s.reserved == 0.0)
    && s.id > 0
  }

  predicate CleanRows(slots: seq<Slot>) {
    forall i | 0 <= i < |slots| :: CleanRow(slots[i])
  }

  predicate DistinctPositions(ps: seq<Position>) {
    && (forall i, j | 0 <= i < j < |ps| :: ps[i].id != ps[j].id)
    && forall i | 0 <= i < |ps| :: ps[i].id > 0
  }

  predicate WellFormed(t: Tables) {
    && DistinctSlots(t.slots) && Injective(t.slots) && CleanRows(t.slots)
    && DistinctPositions(t.positions)
    && (forall i | 0 <= i < |t.slots| :: t.slots[i].id < t.nextSlot)
    && t.nextSlot > 0
  }

  predicate Holds(slots: seq<Slot>, position: int) { HolderOf(slots, position) >= 0 }

  predicate NoVacancy(slots: seq<Slot>, max: int) {
    forall i | 0 <= i < |slots| :: !Vacant(slots[i], max)
  }

  // ----- the queue of positions

  lemma QueueMembers(ps: seq<Position>)
    ensures forall p :: p in Queue(ps) <==> p in ps && Active(p.status)
  {
    FilterMembers(ps, IsActive());
    SortKeeps(Filter(ps, IsActive()), PlacementKey());
    forall p ensures p in Queue(ps) <==> p in ps && Active(p.status) {
      assert p in multiset(Queue(ps)) <==> p in multiset(Filter(ps, IsActive()));
    }
  }

  lemma {:induction false} FilterKeepsDistinct(ps: seq<Position>)
    requires DistinctPositions(ps)
    ensures DistinctPositions(Filter(ps, IsActive()))
  {
    if ps != [] {
      FilterKeepsDistinct(ps[1..]);
      FilterMembers(ps[1..], IsActive());
      var rest := Filter(ps[1..], IsActive());
      forall j | 0 <= j < |rest| ensures rest[j].id != ps[0].id && rest[j].id > 0 {
        assert rest[j] in rest;
        assert rest[j] in ps[1..];
      }
    }
  }

  lemma QueueDistinct(ps: seq<Position>)
    requires DistinctPositions(ps)
    ensures DistinctPositions(Queue(ps))
    ensures Sorted(Queue(ps), PlacementKey())
  {
    var f, q := Filter(ps, IsActive()), Queue(ps);
    FilterKeepsDistinct(ps);
    SortKeeps(f, PlacementKey());
    SortDistinct(f, PlacementKey());
    forall i | 0 <= i < |q| ensures q[i].id > 0 {
      assert q[i] in multiset(q);
      assert q[i] in f;
    }
    forall i, j | 0 <= i < j < |q| ensures q[i].id != q[j].id {
      assert q[i] in multiset(q) && q[j] in multiset(q);
      assert q[i] in f && q[j] in f;
      assert PlacementKey()(q[i]) != PlacementKey()(q[j]);
    }
  }

  // ----- placing

  // Everything a placing pass keeps.
  predicate Layout(slots: seq<Slot>) {
    DistinctSlots(slots) && Injective(slots) && CleanRows(slots)
  }

  // The position has a slot and that slot shows the position's own figures.
  predicate Settled(slots: seq<Slot>, p: Position) {
    exists i :: 0 <= i < |slots| && slots[i].position == p.id && slots[i] == Filled(slots[i], p)
  }

  // A slot changes only by taking an active position it held, or by being vacant.
  predicate Moved(a: Slot, b: Slot, p: Position, max: int) {
    && Active(p.status) && p.id > 0 && b == Filled(a, p)
    && (a.position == p.id || Vacant(a, max))
  }

  predicate SameOrMoved(before: seq<Slot>, after: seq<Slot>, ps: seq<Position>, max: int) {
    && |after| == |before|
    && forall i | 0 <= i < |before| :: after[i] == before[i]
         || exists k :: 0 <= k < |ps| && Moved(before[i], after[i], ps[k], max)
  }

  predicate AllSettled(slots: seq<Slot>, ps: seq<Position>, max: int) {
    forall k | 0 <= k < |ps| :: Served(slots, ps[k], max)
  }

  // Settled, or without a slot while nothing up to max is empty.
  predicate Served(slots: seq<Slot>, p: Position, max: int) {
    Settled(slots, p) || (NoVacancy(slots, max) && !Holds(slots, p.id))
  }

  function Target(slots: seq<Slot>, p: Position, max: int): int {
    var held := HolderOf(slots, p.id);
    if held >= 0 then held else LowestVacant(slots, max)
  }

  lemma PlaceOneKeepsLayout(slots: seq<Slot>, p: Position, max: int)
    requires Layout(slots) && Active(p.status) && p.id > 0
    ensures Layout(PlaceOne(slots, p, max))
    ensures Served(PlaceOne(slots, p, max), p, max)
  {
    var after, i := PlaceOne(slots, p, max), Target(slots, p, max);
    if i >= 0 {
      assert after[i].position == p.id && after[i] == Filled(after[i], p);
    }
  }

  lemma PlaceOneKeepsServed(slots: seq<Slot>, p: Position, q: Position, max: int)
    requires Layout(slots) && Active(p.status) && p.id > 0 && q.id > 0 && q.id != p.id && Served(slots, q, max)
    ensures Served(PlaceOne(slots, p, max), q, max)
  {
    var after := PlaceOne(slots, p, max);
    if Settled(slots, q) {
      var i :| 0 <= i < |slots| && slots[i].position == q.id && slots[i] == Filled(slots[i], q);
      assert after[i] == slots[i];
    } else {
      HoldsMeans(slots, q.id);
      HoldsMeans(after, q.id);
    }
  }

  lemma PlaceOneMoves(slots: seq<Slot>, p: Position, max: int)
    requires Active(p.status) && p.id > 0
    ensures var after := PlaceOne(slots, p, max);
            |after| == |slots| && forall i | 0 <= i < |slots| :: after[i] == slots[i] || Moved(slots[i], after[i], p, max)
  {
  }

  lemma MovesCompose(before: seq<Slot>, mid: seq<Slot>, after: seq<Slot>, ps: seq<Position>, n: nat, max: int)
    requires n < |ps| && DistinctPositions(ps)
    requires SameOrMoved(before, mid, ps[..n], max)
    requires |after| == |mid|
    requires forall i | 0 <= i < |mid| :: after[i] == mid[i] || Moved(mid[i], after[i], ps[n], max)
    ensures SameOrMoved(before, after, ps[..n + 1], max)
  {
    var front, all := ps[..n], ps[..n + 1];
    forall i | 0 <= i < |before|
      ensures after[i] == before[i] || exists k :: 0 <= k < |all| && Moved(before[i], after[i], all[k], max)
    {
      if mid[i] != before[i] {
        var k :| 0 <= k < |front| && Moved(before[i], mid[i], front[k], max);
        assert all[k] == front[k] == ps[k] && ps[k].id != ps[n].id;
        assert after[i] == mid[i];
      } else if after[i] != mid[i] {
        assert all[n] == ps[n];
      }
    }
  }

  lemma {:induction false} PlaceAllKeeps(slots: seq<Slot>, ps: seq<Position>, max: int)
    requires Layout(slots) && DistinctPositions(ps)
    requires forall k | 0 <= k < |ps| :: Active(ps[k].status)
    ensures var after := PlaceAll(slots, ps, max);
            Layout(after) && SameOrMoved(slots, after, ps, max) && AllSettled(after, ps, max)
  {
    hide Layout;
    hide Served;
    hide Moved;
    hide PlaceOne;
    if ps == [] {
    } else {
      var n := |ps| - 1;
      var front, p := ps[..n], ps[n];
      PlaceAllKeeps(slots, front, max);
      var mid, after := PlaceAll(slots, front, max), PlaceAll(slots, ps, max);
      PlaceOneKeepsLayout(mid, p, max);
      PlaceOneMoves(mid, p, max);
      assert ps[..n + 1] == ps;
      MovesCompose(slots, mid, after, ps, n, max);
      forall k | 0 <= k < |ps| ensures Served(after, ps[k], max) {
        if k < n {
          assert ps[k] == front[k] && ps[k].id != p.id;
          PlaceOneKeepsServed(mid, p, ps[k], max);
        }
      }
    }
  }

  lemma HoldsMeans(slots: seq<Slot>, position: int)
    ensures Holds(slots, position) <==> exists i :: 0 <= i < |slots| && slots[i].position == position
  {
  }

  // A position that is not in the queue is held afterwards only where it was held before.
  lemma OthersStay(before: seq<Slot>, after: seq<Slot>, ps: seq<Position>, max: int, position: int)
    requires SameOrMoved(before, after, ps, max) && CleanRows(before)
    requires forall k | 0 <= k < |ps| :: ps[k].id != position
    requires position != 0
    ensures Holds(after, position) <==> Holds(before, position)
  {
    HoldsMeans(before, position);
    HoldsMeans(after, position);
    if Holds(before, position) {
      var i :| 0 <= i < |before| && before[i].position == position;
      assert after[i].position == position;
    }
  }

  lemma SkippedLeavesNoVacancy(slots: seq<Slot>, ps: seq<Position>, max: int, k: nat)
    requires Layout(slots) && DistinctPositions(ps)
    requires forall i | 0 <= i < |ps| :: Active(ps[i].status)
    requires k < |ps| && !Holds(PlaceAll(slots, ps, max), ps[k].id)
    ensures NoVacancy(PlaceAll(slots, ps, max), max)
  {
    PlaceAllKeeps(slots, ps, max);
    var after := PlaceAll(slots, ps, max);
    hide PlaceAll;
    hide NoVacancy;
    HoldsMeans(after, ps[k].id);
    hide Holds;
    assert Served(after, ps[k], max);
  }

  lemma NowhereToGo(slots: seq<Slot>, p: Position, max: int)
    requires NoVacancy(slots, max) && !Holds(slots, p.id)
    ensures PlaceOne(slots, p, max) == slots
  {
  }

  // Placing one position leaves the others where they are, or without a slot.
  lemma OthersUnmoved(slots: seq<Slot>, p: Position, max: int, other: int)
    requires Active(p.status) && p.id > 0 && other != p.id && CleanRows(slots) && other != 0
    ensures Holds(PlaceOne(slots, p, max), other) <==> Holds(slots, other)
  {
    HoldsMeans(slots, other);
    HoldsMeans(PlaceOne(slots, p, max), other);
    hide Holds;
    PlaceOneMoves(slots, p, max);
    var after := PlaceOne(slots, p, max);
    hide PlaceOne;
    forall i | 0 <= i < |slots| ensures after[i].position == other <==> slots[i].position == other {
      assert CleanRow(slots[i]);
    }
  }

  // Whoever found no slot comes after everyone who was given one.
  lemma {:induction false} SkippedAreLatest(slots: seq<Slot>, ps: seq<Position>, max: int, k: nat, l: nat)
    requires Layout(slots) && DistinctPositions(ps)
    requires forall i | 0 <= i < |ps| :: Active(ps[i].status)
    requires k < l < |ps|
    requires !Holds(PlaceAll(slots, ps, max), ps[k].id) && !Holds(slots, ps[l].id)
    ensures !Holds(PlaceAll(slots, ps, max), ps[l].id)
  {
    hide Holds;
    hide NoVacancy;
    hide PlaceOne;
    var n := |ps| - 1;
    var front, p := ps[..n], ps[n];
    var mid := PlaceAll(slots, front, max);
    assert PlaceAll(slots, ps, max) == PlaceOne(mid, p, max);
    hide PlaceAll;
    PlaceAllKeeps(slots, front, max);
    assert front[k] == ps[k] && ps[k].id != p.id;
    OthersUnmoved(mid, p, max, ps[k].id);
    SkippedLeavesNoVacancy(slots, front, max, k);
    if l == n {
      OthersStay(slots, mid, front, max, p.id);
      NowhereToGo(mid, p, max);
    } else {
      assert front[l] == ps[l] && ps[l].id != p.id;
      SkippedAreLatest(slots, front, max, k, l);
      OthersUnmoved(mid, p, max, ps[l].id);
    }
  }

  // Placing again: whoever is settled stays, whoever is not still finds no vacancy.
  lemma {:induction false} PlaceAllSettled(slots: seq<Slot>, ps: seq<Position>, max: int)
    requires Injective(slots) && AllSettled(slots, ps, max)
    requires DistinctPositions(ps)
    ensures PlaceAll(slots, ps, max) == slots
  {
    if ps != [] {
      var n := |ps| - 1;
      assert forall k | 0 <= k < n :: ps[..n][k] == ps[k];
      PlaceAllSettled(slots, ps[..n], max);
      var p := ps[n];
      if Settled(slots, p) {
        var i :| 0 <= i < |slots| && slots[i].position == p.id && slots[i] == Filled(slots[i], p);
        assert HolderOf(slots, p.id) == i;
        assert slots[i := Filled(slots[i], p)] == slots;
      }
    }
  }

  // ----- the whole step

  lemma {:induction false} EnsureKeeps(t: Tables, n: nat)
    requires WellFormed(t)
    ensures WellFormed(Ensure(t, n))
    ensures t.slots <= Ensure(t, n).slots
    ensures forall i | |t.slots| <= i < |Ensure(t, n).slots| :: Ensure(t, n).slots[i].status.Empty?
    ensures Ensure(t, n).reservations == t.reservations && Ensure(t, n).positions == t.positions
    ensures Ensure(t, n).nextReservation == t.nextReservation && Ensure(t, n).nextSlot >= t.nextSlot
    ensures forall k: nat | 1 <= k <= n :: HasNumber(Ensure(t, n).slots, k)
  {
    if n > 0 {
      EnsureKeeps(t, n - 1);
      var b, e := Ensure(t, n - 1), Ensure(t, n);
      if !HasNumber(b.slots, n) {
        assert e.slots[|b.slots|].number == n;
      }
      forall k: nat | 1 <= k <= n ensures HasNumber(e.slots, k) {
        if k < n {
          assert HasNumber(b.slots, k);
          var i :| 0 <= i < |b.slots| && b.slots[i].number == k;
          assert e.slots[i].number == k;
        }
      }
    }
  }

  lemma {:induction false} EnsureAgain(t: Tables, n: nat)
    requires forall k: nat | 1 <= k <= n :: HasNumber(t.slots, k)
    ensures Ensure(t, n) == t
  {
    if n > 0 {
      EnsureAgain(t, n - 1);
    }
  }

  lemma ReleaseKeeps(t: Tables, rs: seq<Reservation>, now: int)
    requires WellFormed(t)
    ensures var after := ReleaseSlots(t.slots, rs, ActiveIds(t.positions), now);
            && |after| == |t.slots| && Layout(after)
            && (forall i | 0 <= i < |after| :: after[i] == t.slots[i] || after[i] == Cleared(t.slots[i], now))
            && (forall i | 0 <= i < |after| :: after[i].status.Reserved? ==> Backed(rs, after[i].id, now))
            && (forall i | 0 <= i < |after| && t.slots[i].position in ActiveIds(t.positions) :: after[i] == t.slots[i])
            && (forall i | 0 <= i < |after| :: after[i].position == 0 || after[i].status.Entering?
                                               || after[i].position in ActiveIds(t.positions))
            && (forall i | 0 <= i < |after| :: after[i].position == 0 ==>
                     after[i].status.Empty? || after[i].status.Reserved? || after[i].status.Entering?)
  {
    var active := ActiveIds(t.positions);
    var after := ReleaseSlots(t.slots, rs, active, now);
    assert 0 !in active;
    forall i | 0 <= i < |after| ensures after[i] == t.slots[i] || after[i] == Cleared(t.slots[i], now) {
      assert CleanRow(t.slots[i]);
    }
  }

  // Well-formedness, injectivity included, survives a reconciliation.
  lemma ReconcileKeepsWellFormed(t: Tables, max: int, now: int)
    requires WellFormed(t)
    ensures WellFormed(Reconciled(t, max, now))
  {
    var e := Ensure(t, AtLeastOne(max));
    EnsureKeeps(t, AtLeastOne(max));
    var rs := ExpireAll(e.reservations, now);
    ReleaseKeeps(e, rs, now);
    QueueMembers(e.positions);
    QueueDistinct(e.positions);
    var released := ReleaseSlots(e.slots, rs, ActiveIds(e.positions), now);
    PlaceAllKeeps(released, Queue(e.positions), max);
    var after := Reconciled(t, max, now);
    forall i | 0 <= i < |after.slots| ensures after.slots[i].id < after.nextSlot {
      assert after.slots[i].id == e.slots[i].id;
    }
  }

  // A slot that already shows an active position keeps it.
  lemma ReconcileKeepsPlaced(t: Tables, max: int, now: int, i: nat)
    requires WellFormed(t) && i < |t.slots| && t.slots[i].position in ActiveIds(t.positions)
    ensures |Reconciled(t, max, now).slots| >= |t.slots|
    ensures Reconciled(t, max, now).slots[i].position == t.slots[i].position
  {
    var e := Ensure(t, AtLeastOne(max));
    EnsureKeeps(t, AtLeastOne(max));
    var rs := ExpireAll(e.reservations, now);
    ReleaseKeeps(e, rs, now);
    QueueMembers(e.positions);
    QueueDistinct(e.positions);
    var released := ReleaseSlots(e.slots, rs, ActiveIds(e.positions), now);
    PlaceAllKeeps(released, Queue(e.positions), max);
    assert e.slots[i] == t.slots[i];
    assert CleanRow(released[i]);
  }

  // Afterwards every active position has a slot, or no slot up to max is empty.
  lemma ReconcileIsMaximal(t: Tables, max: int, now: int, p: Position)
    requires WellFormed(t) && p in t.positions && Active(p.status)
    ensures Served(Reconciled(t, max, now).slots, p, max)
  {
    var e := Ensure(t, AtLeastOne(max));
    EnsureKeeps(t, AtLeastOne(max));
    var rs := ExpireAll(e.reservations, now);
    ReleaseKeeps(e, rs, now);
    QueueMembers(e.positions);
    QueueDistinct(e.positions);
    PlaceAllKeeps(ReleaseSlots(e.slots, rs, ActiveIds(e.positions), now), Queue(e.positions), max);
    assert p in Queue(e.positions);
    var k :| 0 <= k < |Queue(e.positions)| && Queue(e.positions)[k] == p;
  }

  // Of two active positions without a slot, the one opened first is served first.
  lemma ReconcileServesInOrder(t: Tables, max: int, now: int, p: Position, q: Position)
    requires WellFormed(t)
    requires p in t.positions && Active(p.status) && q in t.positions && Active(q.status)
    requires p.openedAt < q.openedAt || (p.openedAt == q.openedAt && p.id < q.id)
    requires !Holds(t.slots, q.id)
    requires !Holds(Reconciled(t, max, now).slots, p.id)
    ensures !Holds(Reconciled(t, max, now).slots, q.id)
  {
    var e := Ensure(t, AtLeastOne(max));
    EnsureKeeps(t, AtLeastOne(max));
    var rs := ExpireAll(e.reservations, now);
    ReleaseKeeps(e, rs, now);
    QueueMembers(e.positions);
    QueueDistinct(e.positions);
    var queue := Queue(e.positions);
    var released := ReleaseSlots(e.slots, rs, ActiveIds(e.positions), now);
    assert p in queue && q in queue;
    var k :| 0 <= k < |queue| && queue[k] == p;
    var l :| 0 <= l < |queue| && queue[l] == q;
    assert k < l by {
      assert Before(PlacementKey()(p), PlacementKey()(q));
    }
    assert !Holds(released, q.id) by {
      HoldsMeans(released, q.id);
      HoldsMeans(t.slots, q.id);
      assert queue[l].id > 0;
    }
    SkippedAreLatest(released, queue, max, k, l);
  }

  // ----- idempotence

  lemma ExpireAgain(rs: seq<Reservation>, now: int)
    ensures ExpireAll(ExpireAll(rs, now), now) == ExpireAll(rs, now)
  {
  }

  // After placing, each row is of a kind that no release step touches.
  lemma PlacedRowsStay(released: seq<Slot>, after: seq<Slot>, queue: seq<Position>, rs: seq<Reservation>,
                       active: set<int>, max: int, now: int)
    requires SameOrMoved(released, after, queue, max)
    requires forall k | 0 <= k < |queue| :: queue[k].id in active
    requires forall i | 0 <= i < |released| :: released[i].status.Reserved? ==> Backed(rs, released[i].id, now)
    requires forall i | 0 <= i < |released| ::
               released[i].status.Reserved? || released[i].status.Entering?
               || (released[i].status.Empty? && released[i].position == 0)
               || (released[i].position != 0 && released[i].position in active)
    ensures ReleaseSlots(after, rs, active, now) == after
  {
    forall i | 0 <= i < |after|
      ensures after[i].status.Reserved? ==> Backed(rs, after[i].id, now)
      ensures after[i].status.Reserved? || after[i].status.Entering?
              || (after[i].status.Empty? && after[i].position == 0)
              || (after[i].position != 0 && after[i].position in active)
    {
      if after[i] != released[i] {
        var k :| 0 <= k < |queue| && Moved(released[i], after[i], queue[k], max);
        assert after[i].position == queue[k].id;
      }
    }
  }

  lemma NumbersStay(before: seq<Slot>, after: seq<Slot>, ps: seq<Position>, max: int, n: nat)
    requires SameOrMoved(before, after, ps, max)
    requires forall k: nat | 1 <= k <= n :: HasNumber(before, k)
    ensures forall k: nat | 1 <= k <= n :: HasNumber(after, k)
  {
    forall k: nat | 1 <= k <= n ensures HasNumber(after, k) {
      assert HasNumber(before, k);
      var i :| 0 <= i < |before| && before[i].number == k;
      assert after[i].number == k;
    }
  }

  lemma ReconcileIsIdempotent(t: Tables, max: int, now: int)
    requires WellFormed(t)
    ensures var once := Reconciled(t, max, now);
            Reconciled(once, max, now) == once
  {
    var n := AtLeastOne(max);
    var e := Ensure(t, n);
    EnsureKeeps(t, n);
    var rs, active, queue := ExpireAll(e.reservations, now), ActiveIds(e.positions), Queue(e.positions);
    var released := ReleaseSlots(e.slots, rs, active, now);
    ReleaseKeeps(e, rs, now);
    QueueMembers(e.positions);
    QueueDistinct(e.positions);
    PlaceAllKeeps(released, queue, max);
    hide PlaceAll;
    hide ReleaseSlots;
    hide Queue;
    hide ExpireAll;
    hide Ensure;
    hide Layout;
    var once := Reconciled(t, max, now);
    forall k: nat | 1 <= k <= n ensures HasNumber(released, k) {
      assert HasNumber(e.slots, k);
      var i :| 0 <= i < |e.slots| && e.slots[i].number == k;
      assert released[i].number == k;
    }
    NumbersStay(released, once.slots, queue, max, n);
    EnsureAgain(once, n);
    ExpireAgain(e.reservations, now);
    forall k | 0 <= k < |queue| ensures queue[k].id in active {
      assert queue[k] in queue;
    }
    PlacedRowsStay(released, once.slots, queue, rs, active, max, now);
    PlaceAllSettled(once.slots, queue, max);
  }
}
