/** The live order log and its idempotency claims: inserts and updates that keep
    exchange order uuids unique and let a key be claimed at most once. */
module OrderLog {
  import opened Basics

  // ----- request ids of status events

  predicate OccursAt(s: string, part: string, i: int) {
    0 <= i <= |s| - |part| && s[i..i + |part|] == part
  }

  predicate Contains(s: string, part: string) {
    exists i :: 0 <= i <= |s| && OccursAt(s, part, i)
  }

  function LowerChar(c: char): char {
    if 'A' <= c <= 'Z' then (c as int + 32) as char else c
  }

  function Lower(s: string): string {
    seq(|s|, i requires 0 <= i < |s| => LowerChar(s[i]))
  }

  // The check made on the request itself.
  predicate IsStatusEvent(id: string) {
    Contains(id, "-submitted-") || Contains(id, "-waiting-") || Contains(id, "-partial")
    || Contains(id, "-canceled-") || Contains(id, "-filled-") || Contains(id, "-failed-")
  }

  // The rows the uuid query leaves in: LIKE ignores case, and its first pattern has
  // no closing dash.
  predicate Canonical(id: string) {
    var s := Lower(id);
    !Contains(s, "-submitted") && !Contains(s, "-waiting-") && !Contains(s, "-partial")
    && !Contains(s, "-canceled-") && !Contains(s, "-filled-") && !Contains(s, "-failed-")
  }

  // ----- tables

  // An empty text stands for NULL.
  datatype Log = Log(requestId: string, clientOrderId: string, uuid: string, key: string, status: string)

  datatype Claim = Claim(key: string, requestId: string, uuid: string, status: string)

  datatype Db = Db(logs: seq<Log>, claims: seq<Claim>)

  datatype InsertError = DuplicateClientOrderId | DuplicateExchangeUuid | DuplicateIdempotencyKey | RowRejected

  datatype InsertResult = Inserted | Refused(error: InsertError)

  datatype Updates = Updates(uuid: Maybe<string>, key: Maybe<string>, status: Maybe<string>, clientOrderId: Maybe<string>)

  function Upper(s: string): string {
    seq(|s|, i requires 0 <= i < |s| => if 'a' <= s[i] <= 'z' then (s[i] as int - 32) as char else s[i])
  }

  predicate Claims(l: Log) {
    l.key != "" && !IsStatusEvent(l.requestId) && Upper(l.status) !in {"BLOCKED", "FAILED", "ERROR"}
  }

  function WithClientId(l: Log): Log {
    if l.clientOrderId != "" then l
    else l.(clientOrderId := if |l.requestId| <= 36 then l.requestId else l.requestId[..36])
  }

  predicate ClientTaken(logs: seq<Log>, client: string, requestId: string) {
    exists i :: 0 <= i < |logs| && logs[i].clientOrderId == client && logs[i].requestId != requestId
  }

  // Some canonical row other than `except` carries the uuid.
  predicate UuidTaken(logs: seq<Log>, uuid: string, except: string) {
    exists i :: 0 <= i < |logs| && logs[i].uuid == uuid && Canonical(logs[i].requestId) && logs[i].requestId != except
  }

  predicate AnyUuidTaken(logs: seq<Log>, uuid: string) {
    exists i :: 0 <= i < |logs| && logs[i].uuid == uuid && Canonical(logs[i].requestId)
  }

  predicate HasRequest(logs: seq<Log>, requestId: string) {
    exists i :: 0 <= i < |logs| && logs[i].requestId == requestId
  }

  predicate ClaimTaken(claims: seq<Claim>, key: string, requestId: string) {
    exists i :: 0 <= i < |claims| && (claims[i].key == key || claims[i].requestId == requestId)
  }

  // `sound` is false when the row violates some other constraint of its table.
  function Insert(db: Db, log: Log, sound: bool): (Db, InsertResult) {
    var l := WithClientId(log);
    var event := IsStatusEvent(l.requestId);
    if ClientTaken(db.logs, l.clientOrderId, l.requestId) && !event then (db, Refused(DuplicateClientOrderId))
    else if l.uuid != "" && !event && AnyUuidTaken(db.logs, l.uuid) then (db, Refused(DuplicateExchangeUuid))
    else if Claims(l) && ClaimTaken(db.claims, l.key, l.requestId) then (db, Refused(DuplicateIdempotencyKey))
    else if HasRequest(db.logs, l.requestId) || !sound then (db, Refused(RowRejected))
    else (Db(db.logs + [l], if Claims(l) then db.claims + [Claim(l.key, l.requestId, l.uuid, "CLAIMED")] else db.claims),
          Inserted)
  }

  function Or<T>(m: Maybe<T>, t: T): T { match m case None => t case Some(v) => v }

  // The row to write, given the row that was read before.
  function Merged(db: Db, current: Log, u: Updates): Log {
    var m := Log(current.requestId, Or(u.clientOrderId, current.clientOrderId), Or(u.uuid, current.uuid),
                 Or(u.key, current.key), Or(u.status, current.status));
    if m.uuid != "" && !IsStatusEvent(m.requestId) && UuidTaken(db.logs, m.uuid, m.requestId)
    then m.(status := "FAILED", uuid := current.uuid) else m
  }

  function ClaimStatus(status: string): string {
    if status == "" then "CLAIMED" else status
  }

  function WriteBack(db: Db, current: Log, u: Updates): Db {
    var m := Merged(db, current, u);
    Db(seq(|db.logs|, i requires 0 <= i < |db.logs| => if db.logs[i].requestId == m.requestId then m else db.logs[i]),
       seq(|db.claims|, i requires 0 <= i < |db.claims| =>
         if m.key != "" && db.claims[i].key == m.key
         then db.claims[i].(uuid := if m.uuid != "" then m.uuid else db.claims[i].uuid, status := ClaimStatus(m.status))
         else db.claims[i]))
  }

  function RowOf(logs: seq<Log>, requestId: string): (i: int)
    ensures -1 <= i < |logs|
    ensures i >= 0 ==> logs[i].requestId == requestId
    ensures i < 0 ==> !HasRequest(logs, requestId)
  {
    if logs == [] then -1
    else if logs[0].requestId == requestId then 0
    else
      var i := RowOf(logs[1..], requestId);
      assert i < 0 ==> forall j | 0 <= j < |logs| :: j == 0 || logs[j] == logs[1..][j - 1];
      if i < 0 then -1 else i + 1
  }

  function Update(db: Db, requestId: string, u: Updates): Db {
    var i := RowOf(db.logs, requestId);
    if i < 0 then db else WriteBack(db, db.logs[i], u)
  }

  // ----- the tables in memory

  class OrderDb {
    var logs: seq<Log>
    var claims: seq<Claim>

    constructor ()
      ensures State() == Db([], [])
    {
      logs, claims := [], [];
    }

    function State(): Db
      reads this
    {
      Db(logs, claims)
    }

    // Nothing is stored before the transaction's last statement has succeeded.
    method InsertLiveOrderLog(log: Log, sound: bool) returns (result: InsertResult)
      modifies this
      ensures (State(), result) == Insert(old(State()), log, sound)
    {
      var l := WithClientId(log);
      var event := IsStatusEvent(l.requestId);
      if ClientTaken(logs, l.clientOrderId, l.requestId) && !event {
        return Refused(DuplicateClientOrderId);
      }
      if l.uuid != "" && !event && AnyUuidTaken(logs, l.uuid) {
        return Refused(DuplicateExchangeUuid);
      }
      var pending := claims;
      if Claims(l) {
        if ClaimTaken(pending, l.key, l.requestId) {
          return Refused(DuplicateIdempotencyKey);
        }
        pending := pending + [Claim(l.key, l.requestId, l.uuid, "CLAIMED")];
      }
      if HasRequest(logs, l.requestId) || !sound {
        return Refused(RowRejected);
      }
      logs, claims := logs + [l], pending;
      return Inserted;
    }

    method UpdateLiveOrderLog(requestId: string, u: Updates)
      modifies this
      ensures State() == Update(old(State()), requestId, u)
    {
      var i := RowOf(logs, requestId);
      if i < 0 {
        return;
      }
      var m := Merged(State(), logs[i], u);
      ghost var before := State();
      for j := 0 to |logs|
        invariant claims == before.claims && |logs| == |before.logs|
        invariant forall k | 0 <= k < j ::
                    logs[k] == if before.logs[k].requestId == m.requestId then m else before.logs[k]
        invariant forall k | j <= k < |logs| :: logs[k] == before.logs[k]
      {
        if logs[j].requestId == m.requestId {
          logs := logs[j := m];
        }
      }
      if m.key != "" {
        for j := 0 to |claims|
          invariant logs == WriteBack(before, before.logs[i], u).logs && |claims| == |before.claims|
          invariant forall k | 0 <= k < j :: claims[k] == WriteBack(before, before.logs[i], u).claims[k]
          invariant forall k | j <= k < |claims| :: claims[k] == before.claims[k]
        {
          if claims[j].key == m.key {
            claims := claims[j := claims[j].(uuid := if m.uuid != "" then m.uuid else claims[j].uuid, status := ClaimStatus(m.status))];
          }
        }
      }
    }
  }
}

/** What every sequence of inserts and updates keeps. */
module OrderLogLaws {
  import opened Basics
  import opened OrderLog

  predicate UuidsUnique(logs: seq<Log>) {
    forall i, j | 0 <= i < j < |logs| && logs[i].uuid != "" && Canonical(logs[i].requestId) && Canonical(logs[j].requestId) ::
      logs[i].uuid != logs[j].uuid
  }

  predicate RequestsUnique(logs: seq<Log>) {
    forall i, j | 0 <= i < j < |logs| :: logs[i].requestId != logs[j].requestId
  }

  predicate ClaimsUnique(claims: seq<Claim>) {
    forall i, j | 0 <= i < j < |claims| :: claims[i].key != claims[j].key && claims[i].requestId != claims[j].requestId
  }

  predicate ClaimsBacked(db: Db) {
    forall i | 0 <= i < |db.claims| :: HasRequest(db.logs, db.claims[i].requestId)
  }

  // What holds in every interleaving.
  predicate Structured(db: Db) {
    RequestsUnique(db.logs) && ClaimsUnique(db.claims) && ClaimsBacked(db)
  }

  predicate Consistent(db: Db) {
    UuidsUnique(db.logs) && Structured(db)
  }

  // ----- the two readings of a request id

  lemma ContainsLower(s: string, part: string)
    requires Contains(s, part) && Lower(part) == part
    ensures Contains(Lower(s), part)
  {
    var i :| 0 <= i <= |s| && OccursAt(s, part, i);
    assert Lower(s)[i..i + |part|] == Lower(s[i..i + |part|]);
    assert OccursAt(Lower(s), part, i);
  }

  // Every request treated as a status event is left out by the uuid query.
  lemma EventsAreNotCanonical(id: string)
    requires IsStatusEvent(id)
    ensures !Canonical(id)
  {
    if Contains(id, "-submitted-") {
      var i :| 0 <= i <= |id| && OccursAt(id, "-submitted-", i);
      assert id[i..i + 10] == id[i..i + 11][..10] == "-submitted";
      assert OccursAt(id, "-submitted", i);
      ContainsLower(id, "-submitted");
    } else if Contains(id, "-waiting-") {
      ContainsLower(id, "-waiting-");
    } else if Contains(id, "-partial") {
      ContainsLower(id, "-partial");
    } else if Contains(id, "-canceled-") {
      ContainsLower(id, "-canceled-");
    } else if Contains(id, "-filled-") {
      ContainsLower(id, "-filled-");
    } else {
      ContainsLower(id, "-failed-");
    }
  }

  // ----- single steps

  lemma InsertKeeps(db: Db, log: Log, sound: bool)
    requires Structured(db)
    ensures Structured(Insert(db, log, sound).0)
    ensures UuidsUnique(db.logs) ==> UuidsUnique(Insert(db, log, sound).0.logs)
    ensures Insert(db, log, sound).1.Refused? ==> Insert(db, log, sound).0 == db
  {
    hide IsStatusEvent;
    hide Canonical;
    var l, after := WithClientId(log), Insert(db, log, sound).0;
    if IsStatusEvent(l.requestId) {
      EventsAreNotCanonical(l.requestId);
    }
    if after != db {
      forall i | 0 <= i < |after.claims| ensures HasRequest(after.logs, after.claims[i].requestId) {
        if i < |db.claims| {
          assert HasRequest(db.logs, db.claims[i].requestId);
          var j :| 0 <= j < |db.logs| && db.logs[j].requestId == db.claims[i].requestId;
          assert after.logs[j] == db.logs[j];
        } else {
          assert after.logs[|db.logs|] == l;
        }
      }
    }
  }

  lemma MergedKeepsRequest(db: Db, current: Log, u: Updates)
    ensures Merged(db, current, u).requestId == current.requestId
  {
  }

  // Writing back a row that may have been read earlier: at most one row changes.
  lemma WriteBackShape(db: Db, current: Log, u: Updates, i: nat)
    requires RequestsUnique(db.logs) && i < |db.logs| && db.logs[i].requestId == current.requestId
    ensures WriteBack(db, current, u).logs == db.logs[i := Merged(db, current, u)]
  {
    MergedKeepsRequest(db, current, u);
    hide Merged;
  }

  lemma WriteBackWithoutRow(db: Db, current: Log, u: Updates)
    requires !HasRequest(db.logs, current.requestId)
    ensures WriteBack(db, current, u).logs == db.logs
  {
    MergedKeepsRequest(db, current, u);
    hide Merged;
  }

  lemma WriteBackKeeps(db: Db, current: Log, u: Updates)
    requires Structured(db)
    ensures Structured(WriteBack(db, current, u))
    ensures |WriteBack(db, current, u).claims| == |db.claims|
    ensures forall k | 0 <= k < |db.claims| :: WriteBack(db, current, u).claims[k].key == db.claims[k].key
  {
    MergedKeepsRequest(db, current, u);
    hide Merged;
    var after := WriteBack(db, current, u);
    assert forall i | 0 <= i < |db.logs| :: after.logs[i].requestId == db.logs[i].requestId;
    forall k | 0 <= k < |after.claims| ensures HasRequest(after.logs, after.claims[k].requestId) {
      assert HasRequest(db.logs, db.claims[k].requestId);
      var j :| 0 <= j < |db.logs| && db.logs[j].requestId == db.claims[k].requestId;
      assert after.logs[j].requestId == db.logs[j].requestId;
    }
  }

  // The wanted uuid is taken and the one read earlier has been taken as well.
  predicate FallsBackOnTaken(db: Db, current: Log, u: Updates) {
    var wanted := Or(u.uuid, current.uuid);
    && Canonical(current.requestId) && HasRequest(db.logs, current.requestId)
    && wanted != "" && UuidTaken(db.logs, wanted, current.requestId)
    && current.uuid != "" && UuidTaken(db.logs, current.uuid, current.requestId)
  }

  // The row is read in one transaction and written in another. Whatever was read, the
  // write keeps uuids unique unless it falls back to a uuid that by now belongs to
  // another canonical row.
  lemma StaleUpdateKeepsUuidsExactlyWhen(db: Db, current: Log, u: Updates)
    requires Consistent(db)
    ensures UuidsUnique(WriteBack(db, current, u).logs) <==> !FallsBackOnTaken(db, current, u)
  {
    if !HasRequest(db.logs, current.requestId) {
      WriteBackWithoutRow(db, current, u);
    } else {
      var i :| 0 <= i < |db.logs| && db.logs[i].requestId == current.requestId;
      WriteBackShape(db, current, u, i);
      MergedUuid(db, current, u);
      var m := Merged(db, current, u);
      hide Canonical;
      hide Merged;
      if Canonical(current.requestId) {
        UuidsAfterWrite(db.logs, i, m);
      } else {
        NonCanonicalWrite(db.logs, i, m);
      }
    }
  }

  lemma MergedUuid(db: Db, current: Log, u: Updates)
    ensures var m, wanted := Merged(db, current, u), Or(u.uuid, current.uuid);
            && m.requestId == current.requestId
            && (Canonical(current.requestId) ==>
                  m.uuid == if wanted != "" && UuidTaken(db.logs, wanted, current.requestId) then current.uuid else wanted)
  {
    if IsStatusEvent(current.requestId) {
      EventsAreNotCanonical(current.requestId);
    }
    hide IsStatusEvent;
    hide Canonical;
  }

  lemma UuidsAfterWrite(logs: seq<Log>, i: nat, m: Log)
    requires UuidsUnique(logs) && RequestsUnique(logs) && i < |logs| && m.requestId == logs[i].requestId
    requires Canonical(m.requestId)
    ensures UuidsUnique(logs[i := m]) <==> m.uuid == "" || !UuidTaken(logs, m.uuid, m.requestId)
  {
    hide Canonical;
    var after := logs[i := m];
    if m.uuid != "" && UuidTaken(logs, m.uuid, m.requestId) {
      var j :| 0 <= j < |logs| && logs[j].uuid == m.uuid && Canonical(logs[j].requestId) && logs[j].requestId != m.requestId;
      assert after[j] == logs[j] && after[i] == m;
    }
  }

  lemma NonCanonicalWrite(logs: seq<Log>, i: nat, m: Log)
    requires UuidsUnique(logs) && i < |logs| && m.requestId == logs[i].requestId && !Canonical(m.requestId)
    ensures UuidsUnique(logs[i := m])
  {
    hide Canonical;
  }

  // Read and written in one step, an update always keeps them unique.
  lemma UpdateKeeps(db: Db, requestId: string, u: Updates)
    requires Structured(db)
    ensures Structured(Update(db, requestId, u))
    ensures UuidsUnique(db.logs) ==> UuidsUnique(Update(db, requestId, u).logs)
  {
    var i := RowOf(db.logs, requestId);
    if i >= 0 {
      var current := db.logs[i];
      WriteBackKeeps(db, current, u);
      hide Canonical;
      if UuidsUnique(db.logs) {
        StaleUpdateKeepsUuidsExactlyWhen(db, current, u);
        assert current.uuid != "" && Canonical(requestId) ==> !UuidTaken(db.logs, current.uuid, current.requestId);
      }
    }
  }

  // ----- runs

  // `WriteOp` is the second half of an update that read `current` at some earlier time.
  datatype Op = InsertOp(log: Log, sound: bool)
              | UpdateOp(requestId: string, updates: Updates)
              | WriteOp(current: Log, changes: Updates)

  function Apply(db: Db, op: Op): Db {
    match op
    case InsertOp(log, sound) => Insert(db, log, sound).0
    case UpdateOp(id, u) => Update(db, id, u)
    case WriteOp(current, u) => WriteBack(db, current, u)
  }

  function RunOps(ops: seq<Op>): Db {
    if ops == [] then Db([], []) else Apply(RunOps(ops[..|ops| - 1]), ops[|ops| - 1])
  }

  predicate Safe(db: Db, op: Op) {
    op.WriteOp? ==> !FallsBackOnTaken(db, op.current, op.changes)
  }

  lemma StepKeeps(db: Db, op: Op)
    requires Structured(db)
    ensures Structured(Apply(db, op))
    ensures UuidsUnique(db.logs) ==> (UuidsUnique(Apply(db, op).logs) <==> Safe(db, op))
  {
    match op
    case InsertOp(log, sound) => InsertKeeps(db, log, sound);
    case UpdateOp(id, u) => UpdateKeeps(db, id, u);
    case WriteOp(current, u) =>
      WriteBackKeeps(db, current, u);
      if UuidsUnique(db.logs) {
        StaleUpdateKeepsUuidsExactlyWhen(db, current, u);
      }
  }

  // In every interleaving of inserts, reads and writes.
  lemma {:induction false} RunsStayStructured(ops: seq<Op>)
    ensures Structured(RunOps(ops))
  {
    hide Structured;
    hide Apply;
    if ops == [] {
      NothingIsConsistent();
    } else {
      RunsStayStructured(ops[..|ops| - 1]);
      StepKeeps(RunOps(ops[..|ops| - 1]), ops[|ops| - 1]);
    }
  }

  lemma NothingIsConsistent()
    ensures Consistent(Db([], []))
  {
  }

  lemma RunNext(ops: seq<Op>)
    requires ops != []
    ensures RunOps(ops) == Apply(RunOps(ops[..|ops| - 1]), ops[|ops| - 1])
  {
  }

  ghost predicate AlwaysUnique(ops: seq<Op>) {
    forall n | 0 <= n <= |ops| :: UuidsUnique(RunOps(ops[..n]).logs)
  }

  ghost predicate AllSafe(ops: seq<Op>) {
    forall n | 0 <= n < |ops| :: Safe(RunOps(ops[..n]), ops[n])
  }

  // Both statements about a run, by the run without its last step and that step.
  lemma LastStep(ops: seq<Op>, rest: seq<Op>)
    requires ops != [] && rest == ops[..|ops| - 1]
    ensures AlwaysUnique(ops) <==> AlwaysUnique(rest) && UuidsUnique(RunOps(ops).logs)
    ensures AllSafe(ops) <==> AllSafe(rest) && Safe(RunOps(rest), ops[|ops| - 1])
  {
    hide RunOps;
    hide UuidsUnique;
    hide Safe;
    var k := |ops| - 1;
    assert ops[..k + 1] == ops && rest[..k] == rest;
    assert forall n | 0 <= n <= k :: rest[..n] == ops[..n];
    assert forall n | 0 <= n < k :: rest[n] == ops[n];
  }

  lemma NothingYet()
    ensures AlwaysUnique([]) && AllSafe([])
  {
    var none: seq<Op> := [];
    assert none[..0] == none && RunOps(none) == Db([], []);
  }

  lemma UniqueAtTheEnd(ops: seq<Op>)
    requires AlwaysUnique(ops)
    ensures UuidsUnique(RunOps(ops).logs)
  {
    assert ops[..|ops|] == ops;
    hide UuidsUnique;
    hide RunOps;
  }

  // Uuids are unique throughout an interleaving exactly when no write falls back on a taken one.
  lemma {:induction false} AlwaysUniqueExactlyWhenSafe(ops: seq<Op>)
    ensures AlwaysUnique(ops) <==> AllSafe(ops)
  {
    hide AlwaysUnique;
    hide AllSafe;
    hide UuidsUnique;
    hide Safe;
    hide Apply;
    hide Structured;
    hide RunOps;
    if ops == [] {
      NothingYet();
    } else {
      var rest, op := ops[..|ops| - 1], ops[|ops| - 1];
      AlwaysUniqueExactlyWhenSafe(rest);
      LastStep(ops, rest);
      RunNext(ops);
      RunsStayStructured(rest);
      StepKeeps(RunOps(rest), op);
      if AlwaysUnique(rest) {
        UniqueAtTheEnd(rest);
      }
    }
  }

  // It can fail: the row of `a` is read, moved to another uuid, `b` is logged under the
  // free one, and the delayed write brings the old uuid back.
  lemma StaleWriteCanRepeatAUuid(a: Log, b: Log, v: string)
    requires Canonical(a.requestId) && Canonical(b.requestId) && a.requestId != b.requestId
    requires a.clientOrderId != "" && b.clientOrderId != "" && a.clientOrderId != b.clientOrderId
    requires a.key == b.key == "" && a.uuid == b.uuid != "" && v != a.uuid
    ensures var ops := [InsertOp(a, true), UpdateOp(a.requestId, Updates(Some(v), None, None, None)), InsertOp(b, true),
                        WriteOp(a, Updates(None, None, Some("CANCELED"), None))];
            && RunOps(ops[..1]).logs == [a]
            && RunOps(ops).logs == [a.(status := "FAILED"), b]
            && !UuidsUnique(RunOps(ops).logs)
  {
    hide Insert;
    hide Update;
    hide WriteBack;
    hide RunOps;
    var free, late := Updates(Some(v), None, None, None), Updates(None, None, Some("CANCELED"), None);
    RunOfFour(InsertOp(a, true), UpdateOp(a.requestId, free), InsertOp(b, true), WriteOp(a, late));
    FirstInsert(a);
    MovedAway(a, free, v);
    SecondInsert(a.(uuid := v), b);
    BroughtBack(a, b, late, v);
  }

  lemma RunOfFour(first: Op, second: Op, third: Op, fourth: Op)
    ensures var ops := [first, second, third, fourth];
            && RunOps(ops[..1]) == Apply(Db([], []), first)
            && RunOps(ops) == Apply(Apply(Apply(Apply(Db([], []), first), second), third), fourth)
  {
    hide Apply;
    var ops := [first, second, third, fourth];
    assert ops[..1][..0] == [] && ops[..2][..1] == ops[..1] && ops[..3][..2] == ops[..2] && ops[..4] == ops;
    assert RunOps([]) == Db([], []);
    RunNext(ops[..1]);
    RunNext(ops[..2]);
    RunNext(ops[..3]);
    RunNext(ops);
  }

  lemma MovedAway(a: Log, u: Updates, v: string)
    requires u == Updates(Some(v), None, None, None)
    ensures Update(Db([a], []), a.requestId, u) == Db([a.(uuid := v)], [])
  {
    hide Canonical;
    hide IsStatusEvent;
    assert RowOf([a], a.requestId) == 0;
  }

  lemma BroughtBack(a: Log, b: Log, u: Updates, v: string)
    requires Canonical(a.requestId) && Canonical(b.requestId) && a.requestId != b.requestId
    requires a.uuid == b.uuid != "" && u == Updates(None, None, Some("CANCELED"), None)
    ensures var after := WriteBack(Db([a.(uuid := v), b], []), a, u).logs;
            after == [a.(status := "FAILED"), b] && !UuidsUnique(after)
  {
    if IsStatusEvent(a.requestId) {
      EventsAreNotCanonical(a.requestId);
    }
    hide Canonical;
    hide IsStatusEvent;
    var before := Db([a.(uuid := v), b], []);
    assert before.logs[1] == b && UuidTaken(before.logs, a.uuid, a.requestId);
    var after := WriteBack(before, a, u).logs;
    assert after == [a.(status := "FAILED"), b];
    assert after[0].uuid == after[1].uuid;
  }

  lemma FirstInsert(a: Log)
    requires a.clientOrderId != "" && a.key == ""
    ensures Insert(Db([], []), a, true) == (Db([a], []), Inserted)
  {
    hide Canonical;
    hide IsStatusEvent;
    assert [] + [a] == [a];
  }

  lemma SecondInsert(a: Log, b: Log)
    requires a.clientOrderId != "" && b.clientOrderId != "" && a.clientOrderId != b.clientOrderId
    requires b.key == "" && a.requestId != b.requestId && (a.uuid != b.uuid || !Canonical(a.requestId))
    ensures Insert(Db([a], []), b, true) == (Db([a, b], []), Inserted)
  {
    hide Canonical;
    hide IsStatusEvent;
    assert [a] + [b] == [a, b];
  }

  // Over every sequence of inserts and updates.
  lemma RunsStayConsistent(ops: seq<Op>)
    requires forall i | 0 <= i < |ops| :: !ops[i].WriteOp?
    ensures Consistent(RunOps(ops))
  {
    hide RunOps;
    hide UuidsUnique;
    hide Structured;
    RunsStayStructured(ops);
    AlwaysUniqueExactlyWhenSafe(ops);
    assert ops[..|ops|] == ops;
  }

  // How many inserts of a run were admitted while claiming the key.
  function Admitted(ops: seq<Op>, key: string): nat {
    if ops == [] then 0
    else
      var before, op := RunOps(ops[..|ops| - 1]), ops[|ops| - 1];
      Admitted(ops[..|ops| - 1], key)
      + if op.InsertOp? && Insert(before, op.log, op.sound).1.Inserted? && Claims(WithClientId(op.log)) && op.log.key == key
        then 1 else 0
  }

  predicate Claimed(db: Db, key: string) {
    exists i :: 0 <= i < |db.claims| && db.claims[i].key == key
  }

  lemma InsertClaims(db: Db, log: Log, sound: bool, key: string)
    ensures var (after, result) := Insert(db, log, sound);
            && (Claimed(after, key) <==> Claimed(db, key) || (result.Inserted? && Claims(WithClientId(log)) && log.key == key))
            && (result.Inserted? && Claims(WithClientId(log)) && log.key == key ==> !Claimed(db, key))
  {
    hide IsStatusEvent;
    hide Canonical;
    var (after, result) := Insert(db, log, sound);
    if Claimed(db, key) {
      var i :| 0 <= i < |db.claims| && db.claims[i].key == key;
      assert after.claims[i] == db.claims[i];
    }
    if result.Inserted? && Claims(WithClientId(log)) {
      assert after.claims[|db.claims|].key == log.key;
    }
  }

  // In every interleaving at most one insert per key is admitted, and the key stays claimed.
  lemma {:induction false} KeyAdmittedAtMostOnce(ops: seq<Op>, key: string)
    ensures Admitted(ops, key) == if Claimed(RunOps(ops), key) then 1 else 0
  {
    hide Insert;
    hide Update;
    hide WriteBack;
    hide Claims;
    if ops != [] {
      var rest, op := ops[..|ops| - 1], ops[|ops| - 1];
      var before := RunOps(rest);
      KeyAdmittedAtMostOnce(rest, key);
      match op
      case InsertOp(log, sound) =>
        InsertClaims(before, log, sound, key);
      case UpdateOp(id, u) =>
        RunsStayStructured(rest);
        UpdateKeepsClaims(before, id, u, key);
      case WriteOp(current, u) =>
        RunsStayStructured(rest);
        WriteKeepsClaims(before, current, u, key);
    }
  }

  lemma WriteKeepsClaims(db: Db, current: Log, u: Updates, key: string)
    requires Structured(db)
    ensures Claimed(WriteBack(db, current, u), key) <==> Claimed(db, key)
  {
    WriteBackKeeps(db, current, u);
    hide WriteBack;
    var after := WriteBack(db, current, u);
    assert forall k | 0 <= k < |db.claims| :: after.claims[k].key == db.claims[k].key;
  }

  lemma UpdateKeepsClaims(db: Db, requestId: string, u: Updates, key: string)
    requires Structured(db)
    ensures Claimed(Update(db, requestId, u), key) <==> Claimed(db, key)
  {
    var i := RowOf(db.logs, requestId);
    if i >= 0 {
      WriteKeepsClaims(db, db.logs[i], u, key);
    }
  }

  // ----- where the two readings differ

  // A row that the check on inserts treats as an order, but that the query leaves out.
  predicate Unseen(id: string) {
    !IsStatusEvent(id) && !Canonical(id)
  }

  // Rows that are no status events have their non-empty uuids to themselves.
  predicate OrdersUnique(logs: seq<Log>) {
    forall i, j | 0 <= i < j < |logs| && logs[i].uuid != "" && !IsStatusEvent(logs[i].requestId) && !IsStatusEvent(logs[j].requestId) ::
      logs[i].uuid != logs[j].uuid
  }

  predicate UnseenHas(logs: seq<Log>, uuid: string) {
    exists i :: 0 <= i < |logs| && logs[i].uuid == uuid && Unseen(logs[i].requestId)
  }

  // An admitted insert keeps the uuids of orders distinct exactly when no unseen row has its uuid.
  lemma InsertKeepsOrdersExactlyWhenSeen(db: Db, log: Log, sound: bool)
    requires OrdersUnique(db.logs) && Insert(db, log, sound).1.Inserted?
    ensures OrdersUnique(Insert(db, log, sound).0.logs)
            <==> log.uuid == "" || IsStatusEvent(log.requestId) || !UnseenHas(db.logs, log.uuid)
  {
    var l := WithClientId(log);
    assert l.uuid == log.uuid && l.requestId == log.requestId;
    var n, after := |db.logs|, Insert(db, log, sound).0.logs;
    assert after == db.logs + [l];
    forall i | 0 <= i < n && Canonical(db.logs[i].requestId) ensures !IsStatusEvent(db.logs[i].requestId) {
      if IsStatusEvent(db.logs[i].requestId) {
        EventsAreNotCanonical(db.logs[i].requestId);
      }
    }
    hide Canonical;
    hide IsStatusEvent;
    if log.uuid != "" && !IsStatusEvent(log.requestId) {
      assert !AnyUuidTaken(db.logs, log.uuid);
      if UnseenHas(db.logs, log.uuid) {
        var i :| 0 <= i < n && db.logs[i].uuid == log.uuid && Unseen(db.logs[i].requestId);
        assert after[i] == db.logs[i] && after[n] == l;
      } else {
        assert forall i | 0 <= i < n && db.logs[i].uuid == log.uuid :: IsStatusEvent(db.logs[i].requestId) || Canonical(db.logs[i].requestId);
      }
    }
  }

  // Some other order has the uuid.
  predicate OrderHas(logs: seq<Log>, uuid: string, except: string) {
    exists i :: 0 <= i < |logs| && logs[i].uuid == uuid && !IsStatusEvent(logs[i].requestId) && logs[i].requestId != except
  }

  // The uuid a write will store for an order: the wanted one unless the query finds it taken.
  function StoredUuid(db: Db, current: Log, u: Updates): string {
    var wanted := Or(u.uuid, current.uuid);
    if wanted != "" && UuidTaken(db.logs, wanted, current.requestId) then current.uuid else wanted
  }

  predicate Clashes(db: Db, current: Log, u: Updates) {
    && !IsStatusEvent(current.requestId) && HasRequest(db.logs, current.requestId)
    && StoredUuid(db, current, u) != "" && OrderHas(db.logs, StoredUuid(db, current, u), current.requestId)
  }

  lemma WriteKeepsOrdersExactlyWhen(db: Db, current: Log, u: Updates)
    requires OrdersUnique(db.logs) && RequestsUnique(db.logs)
    ensures OrdersUnique(WriteBack(db, current, u).logs) <==> !Clashes(db, current, u)
  {
    hide Canonical;
    hide IsStatusEvent;
    if !HasRequest(db.logs, current.requestId) {
      WriteBackWithoutRow(db, current, u);
    } else {
      var i :| 0 <= i < |db.logs| && db.logs[i].requestId == current.requestId;
      WriteBackShape(db, current, u, i);
      var m := Merged(db, current, u);
      assert m.requestId == current.requestId;
      assert !IsStatusEvent(current.requestId) ==> m.uuid == StoredUuid(db, current, u);
      hide Merged;
      hide StoredUuid;
      var after := db.logs[i := m];
      if Clashes(db, current, u) {
        var j :| 0 <= j < |db.logs| && db.logs[j].uuid == m.uuid && !IsStatusEvent(db.logs[j].requestId)
                 && db.logs[j].requestId != current.requestId;
        assert after[j] == db.logs[j] && after[i] == m;
      }
    }
  }

  // What each step must not do; an update reads the row it writes.
  predicate KeepsOrders(db: Db, op: Op) {
    match op
    case InsertOp(log, sound) =>
      Insert(db, log, sound).1.Refused? || log.uuid == "" || IsStatusEvent(log.requestId) || !UnseenHas(db.logs, log.uuid)
    case UpdateOp(id, u) => RowOf(db.logs, id) >= 0 ==> !Clashes(db, db.logs[RowOf(db.logs, id)], u)
    case WriteOp(current, u) => !Clashes(db, current, u)
  }

  lemma StepKeepsOrdersExactlyWhen(db: Db, op: Op)
    requires OrdersUnique(db.logs) && Structured(db)
    ensures OrdersUnique(Apply(db, op).logs) <==> KeepsOrders(db, op)
  {
    hide OrdersUnique;
    hide Clashes;
    hide UnseenHas;
    hide IsStatusEvent;
    match op
    case InsertOp(log, sound) =>
      InsertKeeps(db, log, sound);
      if Insert(db, log, sound).1.Inserted? {
        InsertKeepsOrdersExactlyWhenSeen(db, log, sound);
      }
    case UpdateOp(id, u) =>
      if RowOf(db.logs, id) >= 0 {
        WriteKeepsOrdersExactlyWhen(db, db.logs[RowOf(db.logs, id)], u);
      }
    case WriteOp(current, u) => WriteKeepsOrdersExactlyWhen(db, current, u);
  }

  ghost predicate OrdersAlwaysUnique(ops: seq<Op>) {
    forall n | 0 <= n <= |ops| :: OrdersUnique(RunOps(ops[..n]).logs)
  }

  ghost predicate AllKeepOrders(ops: seq<Op>) {
    forall n | 0 <= n < |ops| :: KeepsOrders(RunOps(ops[..n]), ops[n])
  }

  lemma LastOrderStep(ops: seq<Op>, rest: seq<Op>)
    requires ops != [] && rest == ops[..|ops| - 1]
    ensures OrdersAlwaysUnique(ops) <==> OrdersAlwaysUnique(rest) && OrdersUnique(RunOps(ops).logs)
    ensures AllKeepOrders(ops) <==> AllKeepOrders(rest) && KeepsOrders(RunOps(rest), ops[|ops| - 1])
    ensures OrdersAlwaysUnique(rest) ==> OrdersUnique(RunOps(rest).logs)
  {
    hide RunOps;
    hide OrdersUnique;
    hide KeepsOrders;
    var k := |ops| - 1;
    assert ops[..k + 1] == ops && rest[..k] == rest;
    assert forall n | 0 <= n <= k :: rest[..n] == ops[..n];
    assert forall n | 0 <= n < k :: rest[n] == ops[n];
  }

  lemma NoOrdersYet()
    ensures OrdersAlwaysUnique([]) && AllKeepOrders([])
  {
    var none: seq<Op> := [];
    assert none[..0] == none && RunOps(none) == Db([], []);
  }

  // Over every interleaving the uuids of orders stay distinct exactly when no insert meets
  // an unseen row and no write stores the uuid of another order.
  lemma {:induction false} OrdersStayUniqueExactlyWhen(ops: seq<Op>)
    ensures OrdersAlwaysUnique(ops) <==> AllKeepOrders(ops)
  {
    hide OrdersAlwaysUnique;
    hide AllKeepOrders;
    hide OrdersUnique;
    hide KeepsOrders;
    hide Apply;
    hide Structured;
    hide RunOps;
    if ops == [] {
      NoOrdersYet();
    } else {
      var rest := ops[..|ops| - 1];
      OrdersStayUniqueExactlyWhen(rest);
      LastOrderStep(ops, rest);
      RunNext(ops);
      RunsStayStructured(rest);
      if OrdersAlwaysUnique(rest) {
        StepKeepsOrdersExactlyWhen(RunOps(rest), ops[|ops| - 1]);
      }
    }
  }

  // A request that is no status event but that the query leaves out can be logged
  // with a uuid another row already has.
  lemma UnseenRowsCanShareAUuid(first: Log, second: Log)
    requires first.uuid == second.uuid != "" && first.requestId != second.requestId
    requires first.clientOrderId != "" && second.clientOrderId != "" && first.clientOrderId != second.clientOrderId
    requires first.key == second.key == ""
    requires Unseen(first.requestId) && !IsStatusEvent(second.requestId)
    ensures var one := Insert(Db([], []), first, true);
            var two := Insert(one.0, second, true);
            one.1.Inserted? && two.1.Inserted? && two.0.logs == [first, second] && !OrdersUnique(two.0.logs)
  {
    hide IsStatusEvent;
    hide Canonical;
    FirstInsert(first);
    SecondInsert(first, second);
    var logs := [first, second];
    assert logs[0].uuid == logs[1].uuid;
  }

  lemma SuchARequestExists()
    ensures Unseen("r-submitted")
  {
    var s := "r-submitted";
    assert Lower(s) == s;
    assert OccursAt(s, "-submitted", 1);
    forall part: string, i: int | |part| >= 2 && part[0] == '-' && part[1] != 's' ensures !OccursAt(s, part, i) {
      if 0 <= i <= |s| - |part| {
        assert s[i..i + |part|][0] == s[i] && s[i..i + |part|][1] == s[i + 1];
      }
    }
    forall i: int ensures !OccursAt(s, "-submitted-", i) {
      if 0 <= i <= |s| - 11 {
        assert s[i..i + 11][0] == 'r';
      }
    }
  }
}
