/** The two database leases: the runtime lock, which checks its owner, and the
    scheduler task lock, which checks only times. Times are whole seconds. */
module Leases {
  import opened Basics

  datatype Row = Row(instance: string, status: string, acquired: int, expires: int)

  const RUNNING := "RUNNING"

  predicate Denied(row: Maybe<Row>, instance: string, now: int) {
    row.Some? && row.value.status == RUNNING && row.value.instance != instance && row.value.expires > now
  }

  // `expires` is computed from a second clock reading, `later`.
  function Acquired(row: Maybe<Row>, instance: string, now: int, later: int, ttl: int): Maybe<Row> {
    if Denied(row, instance, now) then row else Some(Row(instance, RUNNING, now, later + ttl))
  }

  function Released(row: Maybe<Row>, instance: string, status: string, now: int): Maybe<Row> {
    if row.Some? && row.value.instance == instance then Some(row.value.(status := status, expires := now)) else row
  }

  class RuntimeLocks {
    var rows: map<string, Row>

    constructor ()
      ensures rows == map[]
    {
      rows := map[];
    }

    function RowOf(lock: string): Maybe<Row>
      reads this
    {
      if lock in rows then Some(rows[lock]) else None
    }

    method AcquireRuntimeLock(lock: string, instance: string, now: int, later: int, ttl: int)
      returns (granted: bool, current: Maybe<Row>)
      modifies this
      ensures granted == !Denied(old(RowOf(lock)), instance, now)
      ensures current == RowOf(lock) == Acquired(old(RowOf(lock)), instance, now, later, ttl)
      ensures forall other | other != lock :: RowOf(other) == old(RowOf(other))
    {
      current := RowOf(lock);
      if current.Some? && current.value.status == RUNNING && current.value.instance != instance
         && current.value.expires > now {
        return false, current;
      }
      rows := rows[lock := Row(instance, RUNNING, now, later + ttl)];
      return true, RowOf(lock);
    }

    method ReleaseRuntimeLock(lock: string, instance: string, status: string, now: int)
      modifies this
      ensures RowOf(lock) == Released(old(RowOf(lock)), instance, status, now)
      ensures forall other | other != lock :: RowOf(other) == old(RowOf(other))
      ensures (old(RowOf(lock)).None? || old(RowOf(lock)).value.instance != instance) ==> rows == old(rows)
    {
      if lock in rows && rows[lock].instance == instance {
        rows := rows[lock := rows[lock].(status := status, expires := now)];
      }
    }
  }

  // ----- the scheduler task lock

  // `until` is NULL after a finish.
  datatype Task = Task(status: string, until: Maybe<int>, started: int)

  function Ttl(ttl: int): int { if ttl < 1 then 1 else ttl }

  predicate TaskDenied(row: Maybe<Task>, ttl: int, now: int) {
    && row.Some? && row.value.status == RUNNING
    && row.value.until.Some? && row.value.until.value > now
    && !(row.value.started + Ttl(ttl) <= now)
  }

  function TaskAcquired(row: Maybe<Task>, ttl: int, now: int): Maybe<Task> {
    if TaskDenied(row, ttl, now) then row else Some(Task(RUNNING, Some(now + Ttl(ttl)), now))
  }

  // A task that never started has no start time; 0 stands for it and is never read
  // while `until` is NULL.
  function TaskFinished(row: Maybe<Task>, status: string): Maybe<Task> {
    Some(Task(status, None, if row.Some? then row.value.started else 0))
  }

  class SchedulerTasks {
    var rows: map<string, Task>

    constructor ()
      ensures rows == map[]
    {
      rows := map[];
    }

    function RowOf(task: string): Maybe<Task>
      reads this
    {
      if task in rows then Some(rows[task]) else None
    }

    method AcquireSchedulerTaskLock(task: string, ttl: int, now: int) returns (granted: bool)
      modifies this
      ensures granted == !TaskDenied(old(RowOf(task)), ttl, now)
      ensures RowOf(task) == TaskAcquired(old(RowOf(task)), ttl, now)
      ensures forall other | other != task :: RowOf(other) == old(RowOf(other))
    {
      if task in rows {
        var current := rows[task];
        var expired := current.started + Ttl(ttl) <= now;
        if current.status == RUNNING && current.until.Some? && current.until.value > now && !expired {
          return false;
        }
      }
      rows := rows[task := Task(RUNNING, Some(now + Ttl(ttl)), now)];
      return true;
    }

    method FinishSchedulerTask(task: string, status: string)
      modifies this
      ensures RowOf(task) == TaskFinished(old(RowOf(task)), status)
      ensures forall other | other != task :: RowOf(other) == old(RowOf(other))
    {
      rows := rows[task := Task(status, None, if task in rows then rows[task].started else 0)];
    }
  }
}

/** Mutual exclusion of the leases over every interleaving of their users. */
module LeaseLaws {
  import opened Basics
  import opened Leases

  // The time during which a holder may believe it has the lock.
  datatype Lease = Lease(holder: string, from: int, until: int)

  predicate Disjoint(a: Lease, b: Lease) { a.until <= b.from || b.until <= a.from }

  // A holder's own later call ends the belief it had before.
  function Ended(leases: seq<Lease>, holder: string, now: int): seq<Lease> {
    seq(|leases|, i requires 0 <= i < |leases| =>
      if leases[i].holder == holder && now < leases[i].until then leases[i].(until := now) else leases[i])
  }

  // ----- runtime lock

  datatype Event = Acquire(instance: string, at: int, later: int, ttl: int)
                 | Release(instance: string, status: string, at: int)

  // The row, every lease granted so far, and the time of the last event.
  datatype World = World(row: Maybe<Row>, leases: seq<Lease>, clock: int)

  function Step(w: World, e: Event): World {
    match e
    case Acquire(x, now, later, ttl) =>
      if Denied(w.row, x, now) then w.(clock := now)
      else World(Acquired(w.row, x, now, later, ttl), Ended(w.leases, x, now) + [Lease(x, now, later + ttl)], now)
    case Release(x, status, now) =>
      World(Released(w.row, x, status, now),
            if w.row.Some? && w.row.value.instance == x then Ended(w.leases, x, now) else w.leases, now)
  }

  predicate Monotone(es: seq<Event>) {
    && (forall i | 0 < i < |es| :: es[i - 1].at <= es[i].at)
    && forall i | 0 <= i < |es| && es[i].Acquire? :: es[i].at <= es[i].later
  }

  function History(start: int, es: seq<Event>): World {
    if es == [] then World(None, [], start) else Step(History(start, es[..|es| - 1]), es[|es| - 1])
  }

  // A lease that has not run out is the one the row shows.
  predicate Current(w: World, l: Lease) {
    l.until <= w.clock
    || (w.row.Some? && w.row.value.status == RUNNING && w.row.value.instance == l.holder && w.row.value.expires == l.until)
  }

  predicate Exclusive(leases: seq<Lease>) {
    forall i, j | 0 <= i < j < |leases| && leases[i].holder != leases[j].holder :: leases[i].until <= leases[j].from
  }

  predicate Sound(w: World) {
    && Exclusive(w.leases)
    && (forall i | 0 <= i < |w.leases| :: Current(w, w.leases[i]) && w.leases[i].from <= w.clock)
  }

  lemma StepKeepsSound(w: World, e: Event)
    requires Sound(w) && w.clock <= e.at
    ensures Sound(Step(w, e))
  {
    var next := Step(w, e);
    forall i | 0 <= i < |w.leases| ensures Current(next, next.leases[i]) && next.leases[i].until <= w.leases[i].until
    {
      assert Current(w, w.leases[i]);
    }
  }

  // Leases of different instances never overlap, in any interleaving.
  lemma {:induction false} RuntimeLeasesNeverOverlap(start: int, es: seq<Event>)
    requires Monotone(es) && (es != [] ==> start <= es[0].at)
    ensures Sound(History(start, es))
    ensures History(start, es).clock == if es == [] then start else es[|es| - 1].at
    ensures var ls := History(start, es).leases;
            forall i, j | 0 <= i < |ls| && 0 <= j < |ls| && ls[i].holder != ls[j].holder :: Disjoint(ls[i], ls[j])
  {
    if es != [] {
      var rest, e := es[..|es| - 1], es[|es| - 1];
      RuntimeLeasesNeverOverlap(start, rest);
      StepKeepsSound(History(start, rest), e);
    }
    var ls := History(start, es).leases;
    forall i, j | 0 <= i < |ls| && 0 <= j < |ls| && ls[i].holder != ls[j].holder ensures Disjoint(ls[i], ls[j]) {
      assert i < j || j < i;
    }
  }

  // While an instance's lease runs, nobody else is granted the lock and nobody else's
  // release changes it.
  lemma HolderIsProtected(w: World, i: nat, other: string, now: int, status: string)
    requires Sound(w) && i < |w.leases| && w.clock <= now < w.leases[i].until && other != w.leases[i].holder
    ensures Denied(w.row, other, now)
    ensures Released(w.row, other, status, now) == w.row
  {
    assert Current(w, w.leases[i]);
  }

  // A grant keeps every other instance out exactly until it expires, and never its holder.
  lemma GrantedUntilExpiry(row: Maybe<Row>, x: string, now: int, later: int, ttl: int, y: string, t: int)
    requires row.None? || row.value.status != "RUNNING" || row.value.instance == x || row.value.expires <= now
    ensures !Denied(row, x, now)
    ensures var after := Acquired(row, x, now, later, ttl);
            && after == Some(Row(x, "RUNNING", now, later + ttl))
            && (Denied(after, y, t) <==> y != x && t < later + ttl)
  {
  }

  // A refused request leaves the row to its holder.
  lemma RefusalChangesNothing(row: Row, x: string, now: int, later: int, ttl: int)
    requires row.status == "RUNNING" && row.instance != x && row.expires > now
    ensures Denied(Some(row), x, now) && Acquired(Some(row), x, now, later, ttl) == Some(row)
  {
  }

  // After the owner's release any instance is granted the lock at once.
  lemma ReleaseFreesTheLock(row: Row, status: string, now: int, y: string, t: int)
    requires now <= t
    ensures var after := Released(Some(row), row.instance, status, now);
            && after == Some(Row(row.instance, status, row.acquired, now))
            && !Denied(after, y, t)
  {
  }

  // The same over histories: whatever came before, once the instance of the row releases,
  // the next request is granted a lease.
  lemma ReleaseLetsTheNextIn(start: int, es: seq<Event>, x: string, status: string, at: int, y: string, later: int, ttl: int)
    requires var w := History(start, es); w.row.Some? && w.row.value.instance == x
    ensures var w := History(start, es);
            var after := Step(Step(w, Release(x, status, at)), Acquire(y, at, later, ttl));
            && |after.leases| == |w.leases| + 1 && after.leases[|w.leases|] == Lease(y, at, later + ttl)
            && after.row == Some(Row(y, "RUNNING", at, later + ttl))
  {
    var w := History(start, es);
    hide History;
    ReleaseFreesTheLock(w.row.value, status, at, y, at);
  }

  // ----- scheduler lock

  // `who` is the process making the call; the stored owner text is never compared.
  datatype TaskEvent = Begin(who: string, ttl: int, at: int) | Finish(who: string, status: string, at: int)

  // `owner` is the process of the last grant.
  datatype TaskWorld = TaskWorld(row: Maybe<Task>, owner: string, leases: seq<Lease>, clock: int)

  function TaskStep(w: TaskWorld, e: TaskEvent): TaskWorld {
    match e
    case Begin(p, ttl, now) =>
      if TaskDenied(w.row, ttl, now) then w.(clock := now)
      else TaskWorld(TaskAcquired(w.row, ttl, now), p, w.leases + [Lease(p, now, now + Ttl(ttl))], now)
    case Finish(p, status, now) =>
      TaskWorld(TaskFinished(w.row, status), w.owner, Ended(w.leases, p, now), now)
  }

  predicate Running(w: TaskWorld, now: int) {
    exists i :: 0 <= i < |w.leases| && now < w.leases[i].until
  }

  // One ttl for every caller, and while a lease runs only the process of the last grant
  // finishes; once it has run out anybody may.
  predicate Disciplined(w: TaskWorld, e: TaskEvent, ttl: int) {
    match e
    case Begin(_, t, _) => Ttl(t) == Ttl(ttl)
    case Finish(p, _, now) => p == w.owner || !Running(w, now)
  }

  predicate TaskCurrent(w: TaskWorld, l: Lease, ttl: int) {
    l.until <= w.clock
    || (&& w.row.Some? && w.row.value.status == RUNNING && w.row.value.until == Some(l.until)
        && l.until == w.row.value.started + Ttl(ttl) && w.owner == l.holder)
  }

  predicate TaskSound(w: TaskWorld, ttl: int) {
    && (forall i, j | 0 <= i < j < |w.leases| :: w.leases[i].until <= w.leases[j].from)
    && (forall i | 0 <= i < |w.leases| :: TaskCurrent(w, w.leases[i], ttl) && w.leases[i].from <= w.clock)
  }

  lemma TaskStepKeepsSound(w: TaskWorld, e: TaskEvent, ttl: int)
    requires TaskSound(w, ttl) && w.clock <= e.at && Disciplined(w, e, ttl)
    ensures TaskSound(TaskStep(w, e), ttl)
  {
    var next := TaskStep(w, e);
    forall i | 0 <= i < |w.leases| ensures TaskCurrent(next, next.leases[i], ttl) && next.leases[i].until <= w.leases[i].until {
      assert TaskCurrent(w, w.leases[i], ttl);
    }
  }

  function TaskHistory(start: int, es: seq<TaskEvent>): TaskWorld {
    if es == [] then TaskWorld(None, "", [], start) else TaskStep(TaskHistory(start, es[..|es| - 1]), es[|es| - 1])
  }

  predicate TaskMonotone(start: int, es: seq<TaskEvent>) {
    (es != [] ==> start <= es[0].at) && forall i | 0 < i < |es| :: es[i - 1].at <= es[i].at
  }

  predicate AllDisciplined(start: int, es: seq<TaskEvent>, ttl: int) {
    forall i | 0 <= i < |es| :: Disciplined(TaskHistory(start, es[..i]), es[i], ttl)
  }

  // Under that discipline no two scheduler leases overlap, not even of one process.
  lemma {:induction false} SchedulerLeasesNeverOverlap(start: int, es: seq<TaskEvent>, ttl: int)
    requires TaskMonotone(start, es) && AllDisciplined(start, es, ttl)
    ensures TaskSound(TaskHistory(start, es), ttl)
    ensures TaskHistory(start, es).clock == if es == [] then start else es[|es| - 1].at
  {
    if es != [] {
      var n := |es| - 1;
      assert forall i | 0 <= i < n :: es[..n][..i] == es[..i];
      SchedulerLeasesNeverOverlap(start, es[..n], ttl);
      TaskStepKeepsSound(TaskHistory(start, es[..n]), es[n], ttl);
    }
  }

  // A grant keeps callers out until its time is up or their own ttl since the start has
  // passed; a ttl below one second counts as one.
  lemma TaskGrantedUntil(row: Maybe<Task>, ttl: int, now: int, other: int, t: int)
    requires !TaskDenied(row, ttl, now)
    ensures var length, patience := if ttl < 1 then 1 else ttl, if other < 1 then 1 else other;
            var after := TaskAcquired(row, ttl, now);
            && after == Some(Task("RUNNING", Some(now + length), now))
            && (TaskDenied(after, other, t) <==> t < now + length && t < now + patience)
  {
  }

  // A refused caller leaves the row as it is.
  lemma TaskRefusalChangesNothing(row: Task, ttl: int, now: int)
    requires row.status == "RUNNING" && row.until.Some? && row.until.value > now
    requires now < row.started + (if ttl < 1 then 1 else ttl)
    ensures TaskDenied(Some(row), ttl, now) && TaskAcquired(Some(row), ttl, now) == Some(row)
  {
  }

  // After a finish the next caller is admitted at once.
  lemma FinishAdmitsTheNext(row: Maybe<Task>, status: string, ttl: int, t: int)
    ensures var after := TaskFinished(row, status);
            && after.Some? && after.value.status == status && after.value.until.None?
            && after.value.started == (if row.Some? then row.value.started else 0)
            && !TaskDenied(after, ttl, t)
  {
  }

  // A running lease is taken over exactly when the newcomer's own ttl, counted from the
  // holder's start, has passed.
  lemma TakenOverExactlyWhenOwnTtlPassed(w: TaskWorld, i: nat, ttl: int, p: string, newTtl: int, now: int)
    requires TaskSound(w, ttl) && i < |w.leases| && w.clock <= now < w.leases[i].until
    ensures |TaskStep(w, Begin(p, newTtl, now)).leases| > |w.leases|
            <==> w.row.value.started + Ttl(newTtl) <= now
  {
    assert TaskCurrent(w, w.leases[i], ttl);
  }

  // A finish is not checked. It keeps the row in step with the leases exactly when the
  // process of the last grant makes it or no lease runs any more.
  lemma FinishIsSafeExactlyWhenOwn(w: TaskWorld, ttl: int, p: string, status: string, now: int)
    requires TaskSound(w, ttl) && w.clock <= now
    ensures TaskSound(TaskStep(w, Finish(p, status, now)), ttl) <==> p == w.owner || !Running(w, now)
  {
    var after := TaskStep(w, Finish(p, status, now));
    if p == w.owner || !Running(w, now) {
      TaskStepKeepsSound(w, Finish(p, status, now), ttl);
    } else {
      var i :| 0 <= i < |w.leases| && now < w.leases[i].until;
      assert TaskCurrent(w, w.leases[i], ttl);
      assert after.leases[i] == w.leases[i];
      assert !TaskCurrent(after, after.leases[i], ttl);
    }
  }

  // Otherwise the next caller is admitted although the holder's lease still runs.
  lemma ForeignFinishBreaksTheLease(w: TaskWorld, i: nat, ttl: int, p: string, status: string, q: string, t: int, now: int)
    requires TaskSound(w, ttl) && i < |w.leases| && w.clock <= now < w.leases[i].until && p != w.leases[i].holder
    ensures var after := TaskStep(TaskStep(w, Finish(p, status, now)), Begin(q, t, now));
            && |after.leases| == |w.leases| + 1 && after.leases[i] == w.leases[i]
            && !Disjoint(after.leases[i], after.leases[|w.leases|])
  {
  }
}
