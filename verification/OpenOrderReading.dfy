/** What the open-order audit reads off its rows: the key of an order, whether it belongs to
    the current epoch, and what each count of the summary counts. */
module OpenOrderReading {
  import ClientOrderIds
  import opened OpenOrderAudit

  // ----- text

  predicate Blank(s: string) { forall i | 0 <= i < |s| :: s[i] in " \t\n\r" }

  predicate Trimmed(s: string) { s != [] ==> s[0] !in " \t\n\r" && s[|s| - 1] !in " \t\n\r" }

  lemma {:induction false} StripLeftReads(left: string, s: string)
    requires Blank(left) && (s != [] ==> s[0] !in " \t\n\r")
    ensures StripLeft(left + s) == s
  {
    if left != [] {
      StripLeftReads(left[1..], s);
      assert (left + s)[1..] == left[1..] + s;
      assert (left + s)[0] == left[0];
    } else {
      assert left + s == s;
    }
  }

  lemma {:induction false} StripRightReads(s: string, right: string)
    requires Blank(right) && (s != [] ==> s[|s| - 1] !in " \t\n\r")
    ensures StripRight(s + right) == s
  {
    if right != [] {
      var front := right[..|right| - 1];
      StripRightReads(s, front);
      assert (s + right)[..|s + right| - 1] == s + front;
      assert (s + right)[|s + right| - 1] == right[|right| - 1];
    } else {
      assert s + right == s;
    }
  }

  // Stripping leaves what lies between the white space at both ends.
  lemma StripReads(left: string, core: string, right: string)
    requires Blank(left) && Trimmed(core) && Blank(right)
    ensures Strip(left + core + right) == core
  {
    if core == [] {
      assert left + core + right == (left + right) + [];
      StripLeftReads(left + right, []);
    } else {
      assert left + core + right == left + (core + right);
      assert (core + right)[0] == core[0];
      StripLeftReads(left, core + right);
      StripRightReads(core, right);
    }
  }

  lemma {:induction false} StripLeftSplits(s: string)
    ensures |StripLeft(s)| <= |s|
    ensures var n := |s| - |StripLeft(s)|; Blank(s[..n]) && StripLeft(s) == s[n..]
    ensures StripLeft(s) != [] ==> StripLeft(s)[0] !in " \t\n\r"
  {
    if s != [] && IsSpace(s[0]) {
      StripLeftSplits(s[1..]);
      var n := |s| - |StripLeft(s)|;
      assert s[..n] == [s[0]] + s[1..][..n - 1];
      assert s[n..] == s[1..][n - 1..];
    }
  }

  lemma {:induction false} StripRightSplits(s: string)
    ensures StripRight(s) <= s && Blank(s[|StripRight(s)|..])
    ensures StripRight(s) != [] ==> StripRight(s)[|StripRight(s)| - 1] !in " \t\n\r"
  {
    if s != [] && IsSpace(s[|s| - 1]) {
      var front := s[..|s| - 1];
      StripRightSplits(front);
      var n := |StripRight(s)|;
      assert s[n..] == front[n..] + [s[|s| - 1]];
    }
  }

  // Every text has such ends.
  lemma StripSplits(s: string)
    ensures exists left, right :: Blank(left) && Trimmed(Strip(s)) && Blank(right) && s == left + Strip(s) + right
  {
    StripTrims(s);
    StripEnds(s);
    hide *;
    var rest := StripLeft(s);
    var left, right := s[..|s| - |rest|], rest[|Strip(s)|..];
    Pieces(s, left, rest, Strip(s), right);
    assert Blank(left) && Trimmed(Strip(s)) && Blank(right) && s == left + Strip(s) + right;
  }

  lemma StripTrims(s: string)
    ensures Trimmed(Strip(s))
  {
    StripLeftSplits(s);
    StripRightSplits(StripLeft(s));
    assert Strip(s) != [] ==> Strip(s)[0] == StripLeft(s)[0];
    hide StripLeft;
    hide StripRight;
  }

  lemma StripEnds(s: string)
    ensures |StripLeft(s)| <= |s| && StripLeft(s) == s[|s| - |StripLeft(s)|..] && Strip(s) <= StripLeft(s)
    ensures Blank(s[..|s| - |StripLeft(s)|]) && Blank(StripLeft(s)[|Strip(s)|..])
  {
    StripLeftSplits(s);
    StripRightSplits(StripLeft(s));
    hide StripLeft;
    hide StripRight;
  }

  lemma Pieces(s: string, left: string, rest: string, core: string, right: string)
    requires |rest| <= |s| && left == s[..|s| - |rest|] && rest == s[|s| - |rest|..]
    requires core <= rest && right == rest[|core|..]
    ensures s == left + core + right
  {
    assert rest == core + right;
    assert s == left + rest;
  }

  // The number of a row is written like the number of an order.
  lemma {:induction false} RowNumberReads(n: nat)
    ensures DecimalText(n) == ClientOrderIds.Written(n, 10)
  {
    if n >= 10 {
      RowNumberReads(n / 10);
    }
  }

  // ----- keys

  function Names(order: Row): seq<string> {
    [order.uuid, order.orderUuid, order.exchangeOrderUuid, order.identifier, order.clientOrderId, order.requestId]
  }

  lemma {:induction false} FirstNamedReads(names: seq<string>, k: nat)
    requires k <= |names| && (forall j | 0 <= j < k :: Blank(names[j])) && (k < |names| ==> !Blank(names[k]))
    ensures FirstNamed(names) == if k < |names| then Strip(names[k]) else []
  {
    if names != [] {
      if k > 0 {
        StripReads(names[0], [], []);
        assert names[0] + [] + [] == names[0];
        FirstNamedReads(names[1..], k - 1);
      } else {
        StripIsNotEmpty(names[0]);
      }
    }
  }

  lemma StripIsNotEmpty(s: string)
    requires !Blank(s)
    ensures Strip(s) != []
  {
    StripSplits(s);
    var left, right :| Blank(left) && Trimmed(Strip(s)) && Blank(right) && s == left + Strip(s) + right;
    hide Strip;
  }

  // The key is the first of the six names that is not blank, without white space at its
  // ends; an order without one is named by its side of the audit, market, side, time and place.
  lemma KeyReads(order: Row, fromExchange: bool, index: nat, k: nat)
    requires k <= 6 && (forall j | 0 <= j < k :: Blank(Names(order)[j])) && (k < 6 ==> !Blank(Names(order)[k]))
    ensures k < 6 ==> KeyOf(order, fromExchange, index) == Strip(Names(order)[k])
    ensures k == 6 ==>
              KeyOf(order, fromExchange, index)
              == (if fromExchange then "exchange:" else "db:") + order.market + ":" + order.side + ":"
                 + (if order.createdAt == "" then order.createdAtUtc else order.createdAt) + ":" + DecimalText(index)
  {
    FirstNamedReads(Names(order), k);
    if k < 6 {
      StripIsNotEmpty(Names(order)[k]);
    }
    assert "exchange" + ":" == "exchange:" && "db" + ":" == "db:";
    hide FirstNamed;
    hide Strip;
    hide DecimalText;
  }

  // ----- times

  // "+00:00" starts at the k-th place.
  predicate OffsetAt(s: string, k: nat) {
    k + 6 <= |s| && s[k..k + 6] == "+00:00"
  }

  // The first "+00:00" becomes "Z", and so on behind it; a text without one stays as it is.
  lemma {:induction false} CanonicalReads(s: string, k: nat)
    requires k <= |s| && (forall j: nat | j < k :: !OffsetAt(s, j)) && (k < |s| ==> OffsetAt(s, k))
    ensures CanonicalTime(s) == s[..k] + (if k < |s| then "Z" + CanonicalTime(s[k + 6..]) else "")
  {
    if s != [] {
      StartReads(s);
      if k > 0 {
        var rest := s[1..];
        assert !OffsetAt(s, 0);
        forall j: nat | j + 6 <= |rest| ensures OffsetAt(rest, j) <==> OffsetAt(s, j + 1) {
          assert rest[j..j + 6] == s[j + 1..j + 7];
        }
        CanonicalReads(rest, k - 1);
        assert s[..k] == [s[0]] + rest[..k - 1];
        assert k < |s| ==> rest[k - 1 + 6..] == s[k + 6..];
      }
    }
  }

  lemma StartReads(s: string)
    ensures "+00:00" <= s <==> OffsetAt(s, 0)
  {
  }

  // Texts are compared at the first place where they differ; of two that do not differ the
  // longer one is not before the other.
  lemma {:induction false} NotBeforeReads(a: string, b: string, k: nat)
    requires k <= |a| && k <= |b| && a[..k] == b[..k] && (k < |a| && k < |b| ==> a[k] != b[k])
    ensures NotBefore(a, b) <==> k == |b| || (k < |a| && a[k] > b[k])
  {
    if k > 0 {
      assert a[0] == a[..k][0] == b[..k][0] == b[0];
      assert a[1..][..k - 1] == a[..k][1..] && b[1..][..k - 1] == b[..k][1..];
      NotBeforeReads(a[1..], b[1..], k - 1);
    }
  }

  // The times an item may take, in order.
  function Times(db: Lookup, exchange: Lookup): seq<string> {
    TimesGiven(db) + TimesGiven(exchange)
  }

  function TimesGiven(found: Lookup): seq<string> {
    if found.Found? then [found.row.createdAtUtc, found.row.createdAt, found.row.orderRequestedAtUtc] else []
  }

  predicate FirstTime(created: string, times: seq<string>, k: int) {
    && 0 <= k <= |times| && (forall j | 0 <= j < k :: times[j] == "")
    && (if k < |times| then created == times[k] && created != "" else created == "")
  }

  // An item is current exactly when the first time its rows give is not before the start of the epoch.
  lemma ItemReads(key: string, db: Lookup, exchange: Lookup, epochStart: string, created: string, k: int)
    requires FirstTime(created, Times(db, exchange), k) && (db.Found? || exchange.Found?)
    ensures var x := AuditItem(key, db, exchange, epochStart);
            && x.key == key && Classified(x)
            && (x.exchangeExists <==> exchange.Found?) && (x.dbExists <==> db.Found?)
            && (x.current <==> created != "" && epochStart != "" && NotBefore(CanonicalTime(created), CanonicalTime(epochStart)))
  {
    ItemClassified(key, db, exchange, epochStart);
    CreatedReads(db, exchange, created, k);
    hide Times;
    hide FirstCreated;
    hide NotBefore;
    hide CanonicalTime;
  }

  lemma CreatedReads(db: Lookup, exchange: Lookup, created: string, k: int)
    requires FirstTime(created, Times(db, exchange), k)
    ensures created == if FirstCreated(db) != [] then FirstCreated(db) else FirstCreated(exchange)
  {
    var n := if db.Found? then 3 else 0;
    TimesOf(db);
    TimesOf(exchange);
    if k >= n {
      assert forall j | 0 <= j < n :: Times(db, exchange)[j] == TimesGiven(db)[j];
      FirstOfThree(db, [], n);
      assert forall j | 0 <= j < |TimesGiven(exchange)| :: Times(db, exchange)[n + j] == TimesGiven(exchange)[j];
      FirstOfThree(exchange, created, k - n);
    } else {
      assert forall j | 0 <= j <= k :: Times(db, exchange)[j] == TimesGiven(db)[j];
      FirstOfThree(db, created, k);
    }
  }

  lemma TimesOf(found: Lookup)
    ensures |TimesGiven(found)| == if found.Found? then 3 else 0
  {
  }

  lemma FirstOfThree(found: Lookup, created: string, k: int)
    requires FirstTime(created, TimesGiven(found), k)
    ensures FirstCreated(found) == created
  {
    var times := TimesGiven(found);
    if found.Found? {
      assert times[0] == found.row.createdAtUtc && times[1] == found.row.createdAt && times[2] == found.row.orderRequestedAtUtc;
    }
  }

  // ----- counts

  function Places(items: seq<Item>, counted: Item -> bool): set<int> {
    set i | 0 <= i < |items| && counted(items[i])
  }

  lemma PlacesNext(items: seq<Item>, counted: Item -> bool)
    requires items != []
    ensures var n := |items| - 1;
            var before := Places(items[..n], counted);
            && n !in before && Places(items, counted) == if counted(items[n]) then before + {n} else before
  {
  }

  lemma {:induction false} PlacesCount(items: seq<Item>, counted: Item -> bool)
    ensures Count(items, counted) == |Places(items, counted)|
  {
    if items == [] {
      assert Places(items, counted) == {};
    } else {
      PlacesCount(items[..|items| - 1], counted);
      PlacesNext(items, counted);
      hide Places;
    }
  }

  lemma CountReads(items: seq<Item>, counted: Item -> bool, places: set<int>)
    requires places == set i | 0 <= i < |items| && counted(items[i])
    ensures Count(items, counted) == |places|
  {
    PlacesCount(items, counted);
    assert places == Places(items, counted);
  }

  // What the figures of the summary count: the rows of either side, and of either epoch.
  lemma SidesRead(items: seq<Item>, status: string)
    ensures var s := Summarize(items, status);
            && s.total == |items|
            && s.exchange == |set i | 0 <= i < |items| && items[i].exchangeExists|
            && s.db == |set i | 0 <= i < |items| && items[i].dbExists|
  {
    CountReads(items, ON_EXCHANGE, set i | 0 <= i < |items| && items[i].exchangeExists);
    CountReads(items, IN_DB, set i | 0 <= i < |items| && items[i].dbExists);
    hide Count;
    hide Blocks;
  }

  lemma EpochsRead(items: seq<Item>, status: string)
    ensures var s := Summarize(items, status);
            && s.current == |set i | 0 <= i < |items| && items[i].current|
            && s.legacy == |set i | 0 <= i < |items| && items[i].legacy|
            && s.stale == |set i | 0 <= i < |items| && items[i].source == DbStaleOnly|
  {
    CountReads(items, IN_CURRENT, set i | 0 <= i < |items| && items[i].current);
    CountReads(items, IN_LEGACY, set i | 0 <= i < |items| && items[i].legacy);
    CountReads(items, STALE, set i | 0 <= i < |items| && items[i].source == DbStaleOnly);
    hide Count;
    hide Blocks;
  }

  // A query counts as answered when it succeeded, also in part; without an answer every
  // database row is unknown and blocks.
  lemma UnknownReads(items: seq<Item>, status: string)
    ensures var s := Summarize(items, status);
            if status == "SUCCESS" || status == "PARTIAL"
            then s.unknown == |set i | 0 <= i < |items| && Unconfirmed(items[i])|
            else s.unknown == |set i | 0 <= i < |items| && items[i].dbExists|
  {
    CountReads(items, UNCONFIRMED, set i | 0 <= i < |items| && Unconfirmed(items[i]));
    CountReads(items, IN_DB, set i | 0 <= i < |items| && items[i].dbExists);
    hide Count;
    hide Blocks;
  }

  predicate Unconfirmed(x: Item) {
    !x.exchangeExists && (x.source == Unknown || x.source == DbOpenOrder)
  }

  predicate StandsInTheWay(x: Item, answered: bool) {
    x.exchangeExists || x.current || (x.dbExists && !answered) || x.source == Unknown || x.source == DbOpenOrder
  }

  lemma BlockingReads(items: seq<Item>, status: string)
    ensures var answered := status == "SUCCESS" || status == "PARTIAL";
            Summarize(items, status).blocking == |set i | 0 <= i < |items| && StandsInTheWay(items[i], answered)|
  {
    var answered := status == "SUCCESS" || status == "PARTIAL";
    CountReads(items, Blocks(answered), set i | 0 <= i < |items| && StandsInTheWay(items[i], answered));
    hide Count;
  }

  // How far the audit is trusted and what is to be done next.
  lemma AdviceReads(items: seq<Item>, status: string)
    ensures var s := Summarize(items, status);
            && (s.trust == High <==> status == "SUCCESS")
            && (s.trust == Medium <==> status == "PARTIAL" && s.exchange == 0)
            && (s.next == UserConfirmCancel <==> s.exchange > 0)
            && (s.next == Investigate <==> s.exchange == 0 && (s.current > 0 || s.unknown > 0))
            && (s.next == IgnoreForPrecheck <==> s.exchange == 0 && s.current == 0 && s.unknown == 0 && s.stale > 0)
            && (s.next == Clear <==> s.exchange == 0 && s.current == 0 && s.unknown == 0 && s.stale == 0)
  {
    hide Count;
    hide Verified;
  }
}
