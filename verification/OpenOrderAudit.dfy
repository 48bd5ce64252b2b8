/** The open-order audit: exchange and database rows paired by identity, classified, counted,
    and compared with the blockers of the smoke-test preflight. */
module OpenOrderAudit {
  // The fields the audit reads; an absent field is the empty string.
  datatype Row = Row(uuid: string, orderUuid: string, exchangeOrderUuid: string, identifier: string, clientOrderId: string,
                     requestId: string, market: string, side: string,
                     createdAtUtc: string, createdAt: string, orderRequestedAtUtc: string)

  datatype Lookup = Missing | Found(row: Row)

  datatype Source = Both | ExchangeOpenOrder | DbStaleOnly | DbOpenOrder | Unknown

  datatype Action = UserConfirmCancel | KeepBlocked | MarkLegacyStale | Investigate | IgnoreForPrecheck | Clear

  datatype Item = Item(key: string, source: Source, exchangeExists: bool, dbExists: bool,
                       current: bool, legacy: bool, action: Action)

  // ----- text

  predicate IsSpace(c: char) {
    c == ' ' || c == '\t' || c == '\n' || c == '\r'
  }

  function StripLeft(s: string): string {
    if s != [] && IsSpace(s[0]) then StripLeft(s[1..]) else s
  }

  function StripRight(s: string): string {
    if s != [] && IsSpace(s[|s| - 1]) then StripRight(s[..|s| - 1]) else s
  }

  function Strip(s: string): string {
    StripRight(StripLeft(s))
  }

  function DecimalText(n: nat): string {
    if n < 10 then ["0123456789"[n]] else DecimalText(n / 10) + ["0123456789"[n % 10]]
  }

  function CanonicalTime(s: string): string {
    if s == [] then []
    else if "+00:00" <= s then "Z" + CanonicalTime(s[6..])
    else [s[0]] + CanonicalTime(s[1..])
  }

  // The text order of the source: code points, a proper start first.
  predicate NotBefore(a: string, b: string) {
    b == [] || (a != [] && (a[0] > b[0] || (a[0] == b[0] && NotBefore(a[1..], b[1..]))))
  }

  // ----- identity

  function FirstNamed(names: seq<string>): string {
    if names == [] then [] else if Strip(names[0]) != [] then Strip(names[0]) else FirstNamed(names[1..])
  }

  function KeyOf(order: Row, fromExchange: bool, index: nat): string {
    var named := FirstNamed([order.uuid, order.orderUuid, order.exchangeOrderUuid, order.identifier,
                             order.clientOrderId, order.requestId]);
    if named != [] then named
    else (if fromExchange then "exchange" else "db") + ":" + order.market + ":" + order.side + ":"
         + (if order.createdAt != [] then order.createdAt else order.createdAtUtc) + ":" + DecimalText(index)
  }

  // Each key stands for the last order that has it; no other order is lost or invented.
  ghost predicate IsIndex(byKey: map<string, Row>, orders: seq<Row>, fromExchange: bool) {
    && (forall i | 0 <= i < |orders| :: KeyOf(orders[i], fromExchange, i) in byKey)
    && (forall key | key in byKey :: exists i :: LastWith(orders, fromExchange, key, i) && byKey[key] == orders[i])
  }

  ghost predicate LastWith(orders: seq<Row>, fromExchange: bool, key: string, i: int) {
    && 0 <= i < |orders| && KeyOf(orders[i], fromExchange, i) == key
    && forall j | i < j < |orders| :: KeyOf(orders[j], fromExchange, j) != key
  }

  method OrdersByIdentity(orders: seq<Row>, fromExchange: bool) returns (result: map<string, Row>)
    ensures IsIndex(result, orders, fromExchange)
    ensures |result| <= |orders|
  {
    hide KeyOf;
    hide IsIndex;
    result := map[];
    NothingIndexed(fromExchange);
    assert orders[..0] == [];
    for i := 0 to |orders|
      invariant IsIndex(result, orders[..i], fromExchange)
      invariant |result| <= i
    {
      var key := KeyOf(orders[i], fromExchange, i);
      IndexNext(result, orders[..i], fromExchange, orders[i]);
      assert orders[..i] + [orders[i]] == orders[..i + 1];
      ghost var before := result;
      result := result[key := orders[i]];
      assert result.Keys == before.Keys + {key};
    }
    assert orders[..|orders|] == orders;
  }

  lemma NothingIndexed(fromExchange: bool)
    ensures IsIndex(map[], [], fromExchange)
  {
  }

  lemma IndexNext(byKey: map<string, Row>, orders: seq<Row>, fromExchange: bool, order: Row)
    requires IsIndex(byKey, orders, fromExchange)
    ensures IsIndex(byKey[KeyOf(order, fromExchange, |orders|) := order], orders + [order], fromExchange)
  {
    hide KeyOf;
    var all, key := orders + [order], KeyOf(order, fromExchange, |orders|);
    var after := byKey[key := order];
    assert LastWith(all, fromExchange, key, |orders|);
    forall k | k in after && k != key ensures exists i :: LastWith(all, fromExchange, k, i) && after[k] == all[i] {
      var i :| LastWith(orders, fromExchange, k, i) && byKey[k] == orders[i];
      assert LastWith(all, fromExchange, k, i);
    }
    forall i | 0 <= i < |all| ensures KeyOf(all[i], fromExchange, i) in after {
      if i < |orders| {
        assert KeyOf(orders[i], fromExchange, i) in byKey;
      }
    }
  }

  // ----- one item

  function FirstCreated(found: Lookup): string {
    if found.Missing? then []
    else if found.row.createdAtUtc != [] then found.row.createdAtUtc
    else if found.row.createdAt != [] then found.row.createdAt
    else found.row.orderRequestedAtUtc
  }

  predicate InEpoch(createdAt: string, epochStart: string) {
    createdAt != [] && epochStart != [] && NotBefore(CanonicalTime(createdAt), CanonicalTime(epochStart))
  }

  function RecommendedAction(source: Source, current: bool): Action {
    if source.ExchangeOpenOrder? || source.Both? then UserConfirmCancel
    else if current then KeepBlocked
    else if source.DbStaleOnly? then MarkLegacyStale
    else Investigate
  }

  function AuditItem(key: string, db: Lookup, exchange: Lookup, epochStart: string): Item {
    var createdAt := if FirstCreated(db) != [] then FirstCreated(db) else FirstCreated(exchange);
    var inEpoch := InEpoch(createdAt, epochStart);
    var current := if exchange.Found? && db.Missing? && createdAt == [] then false else inEpoch;
    var source :=
      if exchange.Found? && db.Found? then Both
      else if exchange.Found? then ExchangeOpenOrder
      else if db.Found? && !inEpoch then DbStaleOnly
      else if db.Found? then DbOpenOrder
      else Unknown;
    Item(key, source, exchange.Found?, db.Found?, current, !current, RecommendedAction(source, current))
  }

  function Get(byKey: map<string, Row>, key: string): Lookup {
    if key in byKey then Found(byKey[key]) else Missing
  }

  // One item for each of the keys, once each.
  ghost predicate Covers(items: seq<Item>, keys: set<string>, db: map<string, Row>, exchange: map<string, Row>, epochStart: string) {
    && (forall i | 0 <= i < |items| ::
          && items[i].key in keys
          && items[i] == AuditItem(items[i].key, Get(db, items[i].key), Get(exchange, items[i].key), epochStart))
    && (forall i, j | 0 <= i < j < |items| :: items[i].key != items[j].key)
    && (forall key | key in keys :: exists i :: 0 <= i < |items| && items[i].key == key)
  }

  // One item for every key either side has.
  ghost predicate IsAudit(items: seq<Item>, db: map<string, Row>, exchange: map<string, Row>, epochStart: string) {
    Covers(items, db.Keys + exchange.Keys, db, exchange, epochStart)
  }

  lemma CoverNext(items: seq<Item>, keys: set<string>, db: map<string, Row>, exchange: map<string, Row>, epochStart: string, key: string)
    requires Covers(items, keys, db, exchange, epochStart) && key !in keys
    ensures Covers(items + [AuditItem(key, Get(db, key), Get(exchange, key), epochStart)], keys + {key}, db, exchange, epochStart)
  {
    ItemHasItsKey(key, Get(db, key), Get(exchange, key), epochStart);
    hide AuditItem;
    var item := AuditItem(key, Get(db, key), Get(exchange, key), epochStart);
    var all := items + [item];
    assert all[|items|] == item && item.key == key;
    forall k | k in keys ensures exists i :: 0 <= i < |all| && all[i].key == k {
      var i :| 0 <= i < |items| && items[i].key == k;
      assert all[i].key == k;
    }
  }

  lemma NothingCovered(db: map<string, Row>, exchange: map<string, Row>, epochStart: string)
    ensures Covers([], {}, db, exchange, epochStart)
  {
  }

  // The items of the given keys, in some order.
  method AuditKeys(keys: set<string>, db: map<string, Row>, exchange: map<string, Row>, epochStart: string)
    returns (items: seq<Item>)
    ensures Covers(items, keys, db, exchange, epochStart) && |items| == |keys|
  {
    hide Covers;
    hide AuditItem;
    hide Get;
    var left := keys;
    ghost var done: set<string> := {};
    items := [];
    NothingCovered(db, exchange, epochStart);
    while left != {}
      invariant done + left == keys && done !! left && |items| == |done|
      invariant Covers(items, done, db, exchange, epochStart)
      decreases |left|
    {
      var key :| key in left;
      CoverNext(items, done, db, exchange, epochStart, key);
      items := items + [AuditItem(key, Get(db, key), Get(exchange, key), epochStart)];
      left := left - {key};
      done := done + {key};
    }
    assert done == keys;
  }

  // The rows of both sides, paired; the items come in some order of the keys.
  method PairOrders(dbOrders: seq<Row>, exchangeOrders: seq<Row>, epochStart: string)
    returns (items: seq<Item>, db: map<string, Row>, exchange: map<string, Row>)
    ensures IsIndex(db, dbOrders, false) && IsIndex(exchange, exchangeOrders, true)
    ensures IsAudit(items, db, exchange, epochStart)
    ensures |items| == |db.Keys + exchange.Keys| && |items| <= |dbOrders| + |exchangeOrders|
  {
    hide Covers;
    hide IsIndex;
    exchange := OrdersByIdentity(exchangeOrders, true);
    db := OrdersByIdentity(dbOrders, false);
    items := AuditKeys(db.Keys + exchange.Keys, db, exchange, epochStart);
    assert |db.Keys + exchange.Keys| <= |db.Keys| + |exchange.Keys|;
  }

  lemma ItemHasItsKey(key: string, db: Lookup, exchange: Lookup, epochStart: string)
    ensures AuditItem(key, db, exchange, epochStart).key == key
  {
  }

  // What an audited row can look like.
  predicate Classified(x: Item) {
    && (x.exchangeExists || x.dbExists) && x.legacy == !x.current
    && (x.source.Both? <==> x.exchangeExists && x.dbExists)
    && (x.source.ExchangeOpenOrder? <==> x.exchangeExists && !x.dbExists)
    && (x.source.DbStaleOnly? <==> !x.exchangeExists && !x.current)
    && (x.source.DbOpenOrder? <==> !x.exchangeExists && x.current)
    && (x.action.UserConfirmCancel? <==> x.exchangeExists)
    && (x.action.KeepBlocked? <==> x.source.DbOpenOrder?)
    && (x.action.MarkLegacyStale? <==> x.source.DbStaleOnly?)
  }

  lemma ItemClassified(key: string, db: Lookup, exchange: Lookup, epochStart: string)
    requires db.Found? || exchange.Found?
    ensures Classified(AuditItem(key, db, exchange, epochStart))
  {
    hide InEpoch;
    hide FirstCreated;
  }

  lemma AuditClassifies(items: seq<Item>, db: map<string, Row>, exchange: map<string, Row>, epochStart: string)
    requires IsAudit(items, db, exchange, epochStart)
    ensures forall i | 0 <= i < |items| :: Classified(items[i])
  {
    hide AuditItem;
    hide Classified;
    forall i | 0 <= i < |items| ensures Classified(items[i]) {
      var key := items[i].key;
      ItemClassified(key, Get(db, key), Get(exchange, key), epochStart);
    }
  }

  // ----- the summary

  function Count(items: seq<Item>, counted: Item -> bool): nat {
    if items == [] then 0
    else Count(items[..|items| - 1], counted) + (if counted(items[|items| - 1]) then 1 else 0)
  }

  const ON_EXCHANGE := (x: Item) => x.exchangeExists
  const IN_DB := (x: Item) => x.dbExists
  const IN_CURRENT := (x: Item) => x.current
  const IN_LEGACY := (x: Item) => x.legacy
  const STALE := (x: Item) => x.source.DbStaleOnly?
  const UNCONFIRMED := (x: Item) => (x.source.Unknown? || x.source.DbOpenOrder?) && !x.exchangeExists

  function Blocks(verified: bool): Item -> bool {
    (x: Item) => x.exchangeExists || x.current || (!verified && x.dbExists) || x.source.Unknown? || x.source.DbOpenOrder?
  }

  predicate Verified(status: string) {
    status == "SUCCESS" || status == "PARTIAL"
  }

  datatype Trust = High | Medium | Low

  datatype Summary = Summary(total: nat, exchange: nat, db: nat, stale: nat, current: nat, legacy: nat, unknown: nat,
                             blocking: nat, trust: Trust, next: Action)

  function Summarize(items: seq<Item>, status: string): Summary {
    var exchange, db, current, stale :=
      Count(items, ON_EXCHANGE), Count(items, IN_DB), Count(items, IN_CURRENT), Count(items, STALE);
    var unknown := if Verified(status) then Count(items, UNCONFIRMED) else db;
    Summary(|items|, exchange, db, stale, current, Count(items, IN_LEGACY), unknown, Count(items, Blocks(Verified(status))),
            if status == "PARTIAL" && exchange == 0 then Medium else if status == "SUCCESS" then High else Low,
            if exchange > 0 then UserConfirmCancel
            else if current > 0 || unknown > 0 then Investigate
            else if stale > 0 then IgnoreForPrecheck
            else Clear)
  }

  datatype Blocker = ExchangeOrderExists(count: nat) | CurrentEpochOrderExists(count: nat) | UnknownOrderExists(count: nat)

  // The open-order blockers the preflight appends to those it already has.
  method AddOpenOrderBlockers(blockers: seq<Blocker>, s: Summary) returns (all: seq<Blocker>)
    ensures blockers <= all
    ensures all == blockers <==> s.exchange == 0 && s.current == 0 && s.unknown == 0
    ensures forall b :: b in all[|blockers|..]
                        <==> || (b == ExchangeOrderExists(s.exchange) && s.exchange > 0)
                             || (b == CurrentEpochOrderExists(s.current) && s.current > 0)
                             || (b == UnknownOrderExists(s.unknown) && s.unknown > 0)
    ensures |all| == |blockers| + (if s.exchange > 0 then 1 else 0) + (if s.current > 0 then 1 else 0)
                     + (if s.unknown > 0 then 1 else 0)
  {
    all := blockers;
    ghost var added: seq<Blocker> := [];
    if s.exchange != 0 {
      all := all + [ExchangeOrderExists(s.exchange)];
      added := added + [ExchangeOrderExists(s.exchange)];
    }
    if s.current != 0 {
      all := all + [CurrentEpochOrderExists(s.current)];
      added := added + [CurrentEpochOrderExists(s.current)];
    }
    if s.unknown != 0 {
      all := all + [UnknownOrderExists(s.unknown)];
      added := added + [UnknownOrderExists(s.unknown)];
    }
    assert all[|blockers|..] == added;
  }

  // How the counts of classified rows relate, whatever the rows are.
  lemma {:induction false} CountsRelate(items: seq<Item>)
    requires forall i | 0 <= i < |items| :: Classified(items[i])
    ensures Count(items, IN_CURRENT) + Count(items, IN_LEGACY) == |items|
    ensures Count(items, Blocks(true)) + Count(items, STALE) == |items|
    ensures Count(items, Blocks(false)) == |items|
    ensures Count(items, UNCONFIRMED) <= Count(items, IN_CURRENT) <= Count(items, Blocks(true))
    ensures Count(items, ON_EXCHANGE) + Count(items, UNCONFIRMED) == Count(items, Blocks(true))
    ensures |items| <= Count(items, ON_EXCHANGE) + Count(items, IN_DB)
    ensures Count(items, STALE) <= Count(items, IN_DB) && Count(items, ON_EXCHANGE) <= |items|
  {
    if items != [] {
      var front, last := items[..|items| - 1], items[|items| - 1];
      CountsRelate(front);
      assert Classified(last);
    }
  }

  // The audit and the preflight agree, for all rows on both sides and every status of the exchange query.
  lemma AuditAgreesWithPreflight(items: seq<Item>, db: map<string, Row>, exchange: map<string, Row>, epochStart: string, status: string)
    requires IsAudit(items, db, exchange, epochStart)
    ensures var s := Summarize(items, status);
            && (s.blocking > 0 <==> s.exchange > 0 || s.current > 0 || s.unknown > 0)
            && s.current + s.legacy == s.total
            && s.blocking == (if Verified(status) then s.total - s.stale else s.total)
            && (Verified(status) ==> s.blocking == s.exchange + s.unknown)
  {
    AuditClassifies(items, db, exchange, epochStart);
    CountsRelate(items);
    hide Count;
  }

  // What the recommended next step tells about the rows.
  lemma NextStepMeans(items: seq<Item>, db: map<string, Row>, exchange: map<string, Row>, epochStart: string, status: string)
    requires IsAudit(items, db, exchange, epochStart)
    ensures var s := Summarize(items, status);
            && (s.next.Clear? <==> db == map[] && exchange == map[])
            && (s.next.UserConfirmCancel? <==> exchange != map[])
            && (s.next.IgnoreForPrecheck? <==> Verified(status) && exchange == map[] && db != map[] && AllStale(db, epochStart))
  {
    AuditClassifies(items, db, exchange, epochStart);
    CountsRelate(items);
    PositiveCount(items, ON_EXCHANGE);
    FullCount(items, STALE);
    SomeRow(items, db, exchange, epochStart);
    if exchange == map[] {
    }
    hide Count;
    hide AuditItem;
    hide IsAudit;
  }

  predicate AllStale(db: map<string, Row>, epochStart: string) {
    forall key | key in db :: AuditItem(key, Found(db[key]), Missing, epochStart).source.DbStaleOnly?
  }

  lemma {:induction false} PositiveCount(items: seq<Item>, counted: Item -> bool)
    ensures Count(items, counted) > 0 <==> exists i :: 0 <= i < |items| && counted(items[i])
  {
    if items != [] {
      var front, last := items[..|items| - 1], items[|items| - 1];
      PositiveCount(front, counted);
      if i :| 0 <= i < |front| && counted(front[i]) {
        assert counted(items[i]);
      }
    }
  }

  lemma {:induction false} FullCount(items: seq<Item>, counted: Item -> bool)
    ensures Count(items, counted) <= |items|
    ensures Count(items, counted) == |items| <==> forall i | 0 <= i < |items| :: counted(items[i])
  {
    if items != [] {
      FullCount(items[..|items| - 1], counted);
    }
  }

  lemma SomeRow(items: seq<Item>, db: map<string, Row>, exchange: map<string, Row>, epochStart: string)
    requires IsAudit(items, db, exchange, epochStart)
    ensures items == [] <==> db == map[] && exchange == map[]
  {
    var first := if items != [] then items[0].key else "";
    assert items != [] ==> first in db.Keys + exchange.Keys;
    if db != map[] {
      var key :| key in db;
      var i :| 0 <= i < |items| && items[i].key == key;
    } else if exchange != map[] {
      var key :| key in exchange;
      var i :| 0 <= i < |items| && items[i].key == key;
    }
  }
}
