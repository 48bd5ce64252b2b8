/** What inserts and updates store, column by column, and when they refuse. */
module OrderRows {
  import opened Basics
  import opened OrderLog
  import opened OrderLogLaws

  // ----- the two readings of a request id, as spellings

  // The part stands somewhere in the text.
  ghost predicate Spells(s: string, part: string) {
    exists before, after: string :: s == before + part + after
  }

  lemma ContainsMeansSpells(s: string, part: string)
    ensures Contains(s, part) <==> Spells(s, part)
  {
    if Contains(s, part) {
      var i :| 0 <= i <= |s| && OccursAt(s, part, i);
      assert s == s[..i] + part + s[i + |part|..];
    }
    if Spells(s, part) {
      var before, after: string :| s == before + part + after;
      assert s[|before|..|before| + |part|] == part;
      assert OccursAt(s, part, |before|);
    }
  }

  lemma EventExactlyWhenSpelt(id: string)
    ensures IsStatusEvent(id)
       <==> || Spells(id, "-submitted-") || Spells(id, "-waiting-") || Spells(id, "-partial")
            || Spells(id, "-canceled-") || Spells(id, "-filled-") || Spells(id, "-failed-")
  {
    hide Contains;
    hide Spells;
    ContainsMeansSpells(id, "-submitted-");
    ContainsMeansSpells(id, "-waiting-");
    ContainsMeansSpells(id, "-partial");
    ContainsMeansSpells(id, "-canceled-");
    ContainsMeansSpells(id, "-filled-");
    ContainsMeansSpells(id, "-failed-");
  }

  // Equal up to the case of the letters A to Z.
  predicate SameLetters(s: string, t: string) {
    |s| == |t| && forall k | 0 <= k < |s| :: s[k] == t[k] || ('A' <= s[k] <= 'Z' && t[k] as int == s[k] as int - 'A' as int + 'a' as int)
  }

  lemma CanonicalExactlyWhenNotSpelt(id: string, lower: string)
    requires SameLetters(id, lower) && forall k | 0 <= k < |lower| :: !('A' <= lower[k] <= 'Z')
    ensures Canonical(id)
       <==> && !Spells(lower, "-submitted") && !Spells(lower, "-waiting-") && !Spells(lower, "-partial")
            && !Spells(lower, "-canceled-") && !Spells(lower, "-filled-") && !Spells(lower, "-failed-")
  {
    assert Lower(id) == lower;
    hide Contains;
    hide Spells;
    hide Lower;
    ContainsMeansSpells(lower, "-submitted");
    ContainsMeansSpells(lower, "-waiting-");
    ContainsMeansSpells(lower, "-partial");
    ContainsMeansSpells(lower, "-canceled-");
    ContainsMeansSpells(lower, "-filled-");
    ContainsMeansSpells(lower, "-failed-");
  }

  // ----- inserts

  // The client id a row is stored under.
  function ClientId(log: Log): string {
    if log.clientOrderId != "" then log.clientOrderId
    else if |log.requestId| > 36 then log.requestId[..36] else log.requestId
  }

  // In capitals, letter by letter.
  predicate Capitals(s: string, t: string) {
    |s| == |t| && forall k | 0 <= k < |s| ::
      if 'a' <= s[k] <= 'z' then t[k] as int == s[k] as int - 'a' as int + 'A' as int else t[k] == s[k]
  }

  lemma UpperIsCapitals(s: string, t: string)
    requires Capitals(s, t)
    ensures Upper(s) == t
  {
  }

  // What an insert finds in its way.
  predicate ClientClash(db: Db, log: Log) {
    && !IsStatusEvent(log.requestId)
    && exists i :: 0 <= i < |db.logs| && db.logs[i].clientOrderId == ClientId(log) && db.logs[i].requestId != log.requestId
  }

  predicate UuidClash(db: Db, log: Log) {
    && !IsStatusEvent(log.requestId) && log.uuid != ""
    && exists i :: 0 <= i < |db.logs| && db.logs[i].uuid == log.uuid && Canonical(db.logs[i].requestId)
  }

  // The row wants its key for itself; `capitals` is its status in capitals.
  predicate WantsKey(log: Log, capitals: string) {
    log.key != "" && !IsStatusEvent(log.requestId) && capitals != "BLOCKED" && capitals != "FAILED" && capitals != "ERROR"
  }

  predicate KeyClash(db: Db, log: Log, capitals: string) {
    && WantsKey(log, capitals)
    && exists i :: 0 <= i < |db.claims| && (db.claims[i].key == log.key || db.claims[i].requestId == log.requestId)
  }

  predicate RequestClash(db: Db, log: Log) {
    exists i :: 0 <= i < |db.logs| && db.logs[i].requestId == log.requestId
  }

  // Which inserts are refused and why, and what an admitted one stores.
  lemma InsertStores(db: Db, log: Log, sound: bool, capitals: string)
    requires Capitals(log.status, capitals)
    ensures var (after, result) := Insert(db, log, sound);
            && (result == Refused(DuplicateClientOrderId) <==> ClientClash(db, log))
            && (result == Refused(DuplicateExchangeUuid) <==> !ClientClash(db, log) && UuidClash(db, log))
            && (result == Refused(DuplicateIdempotencyKey) <==>
                  !ClientClash(db, log) && !UuidClash(db, log) && KeyClash(db, log, capitals))
            && (result == Inserted <==>
                  && !ClientClash(db, log) && !UuidClash(db, log) && !KeyClash(db, log, capitals)
                  && !RequestClash(db, log) && sound)
            && (result != Inserted ==> after == db)
            && (result == Inserted ==>
                  && after.logs == db.logs + [Log(log.requestId, ClientId(log), log.uuid, log.key, log.status)]
                  && after.claims == db.claims + if WantsKey(log, capitals)
                                                 then [Claim(log.key, log.requestId, log.uuid, "CLAIMED")] else [])
  {
    UpperIsCapitals(log.status, capitals);
    hide IsStatusEvent;
    hide Canonical;
    hide Upper;
    var l := WithClientId(log);
    assert l == Log(log.requestId, ClientId(log), log.uuid, log.key, log.status);
    assert ClientTaken(db.logs, l.clientOrderId, l.requestId) && !IsStatusEvent(l.requestId) <==> ClientClash(db, log);
    assert l.uuid != "" && !IsStatusEvent(l.requestId) && AnyUuidTaken(db.logs, l.uuid) <==> UuidClash(db, log);
    assert Claims(l) <==> WantsKey(log, capitals);
    assert Claims(l) && ClaimTaken(db.claims, l.key, l.requestId) <==> KeyClash(db, log, capitals);
    assert HasRequest(db.logs, l.requestId) <==> RequestClash(db, log);
  }

  // ----- updates

  function Given(m: Maybe<string>, old_: string): string {
    if m.Some? then m.value else old_
  }

  // Another canonical row has the uuid the update wants for an order.
  predicate UuidRefused(db: Db, current: Log, u: Updates) {
    var wanted := Given(u.uuid, current.uuid);
    && wanted != "" && !IsStatusEvent(current.requestId)
    && exists j :: 0 <= j < |db.logs| && db.logs[j].uuid == wanted && Canonical(db.logs[j].requestId)
                   && db.logs[j].requestId != current.requestId
  }

  // The columns of a row written over `current`.
  predicate Stored(row: Log, db: Db, current: Log, u: Updates) {
    && row.requestId == current.requestId
    && row.clientOrderId == Given(u.clientOrderId, current.clientOrderId)
    && row.key == Given(u.key, current.key)
    && (if UuidRefused(db, current, u)
        then row.status == "FAILED" && row.uuid == current.uuid
        else row.status == Given(u.status, current.status) && row.uuid == Given(u.uuid, current.uuid))
  }

  // A claim after a row with its key was written.
  predicate Copied(claim: Claim, before: Claim, row: Log) {
    && claim.key == before.key && claim.requestId == before.requestId
    && (if row.key != "" && before.key == row.key
        then && claim.status == (if row.status == "" then "CLAIMED" else row.status)
             && claim.uuid == (if row.uuid == "" then before.uuid else row.uuid)
        else claim.status == before.status && claim.uuid == before.uuid)
  }

  // A write stores the given columns over those that were read, in its own row only, and
  // copies uuid and status to the claims of the row's key.
  lemma WriteStores(db: Db, current: Log, u: Updates, i: nat)
    requires RequestsUnique(db.logs) && i < |db.logs| && db.logs[i].requestId == current.requestId
    ensures var after := WriteBack(db, current, u);
            && |after.logs| == |db.logs| && Stored(after.logs[i], db, current, u)
            && (forall j | 0 <= j < |db.logs| && j != i :: after.logs[j] == db.logs[j])
            && |after.claims| == |db.claims|
            && forall k | 0 <= k < |db.claims| :: Copied(after.claims[k], db.claims[k], after.logs[i])
  {
    WriteBackShape(db, current, u, i);
    var after := WriteBack(db, current, u);
    hide IsStatusEvent;
    hide Canonical;
    assert UuidTaken(db.logs, Given(u.uuid, current.uuid), current.requestId) <==>
           exists j :: 0 <= j < |db.logs| && db.logs[j].uuid == Given(u.uuid, current.uuid) && Canonical(db.logs[j].requestId)
                       && db.logs[j].requestId != current.requestId;
    assert after.logs[i] == Merged(db, current, u);
  }

  // An update of a logged request stores what it was given; one of an unknown request
  // changes nothing.
  lemma UpdateStores(db: Db, requestId: string, u: Updates)
    requires RequestsUnique(db.logs)
    ensures (forall i | 0 <= i < |db.logs| :: db.logs[i].requestId != requestId) ==> Update(db, requestId, u) == db
    ensures forall i | 0 <= i < |db.logs| && db.logs[i].requestId == requestId ::
              var after := Update(db, requestId, u);
              && |after.logs| == |db.logs| && Stored(after.logs[i], db, db.logs[i], u)
              && (forall j | 0 <= j < |db.logs| && j != i :: after.logs[j] == db.logs[j])
              && |after.claims| == |db.claims|
              && forall k | 0 <= k < |db.claims| :: Copied(after.claims[k], db.claims[k], after.logs[i])
  {
    hide Stored;
    hide Copied;
    hide WriteBack;
    var i := RowOf(db.logs, requestId);
    if i >= 0 {
      WriteStores(db, db.logs[i], u, i);
      assert forall j | 0 <= j < |db.logs| && db.logs[j].requestId == requestId :: j == i;
    }
  }
}
