/** The ledger's figures split over any grouping of the fills that keeps each market
    whole, and do not depend on the order in which rows arrive. */
module LedgerDecomposition {
  import opened Basics
  import opened FifoLots
  import opened RealSums
  import opened KeySort
  import opened FillLedger
  import opened LedgerConservation

  function Not(p: Fill -> bool): Fill -> bool { (f: Fill) => !p(f) }

  // Every row of a market falls on the same side of p.
  predicate WholeMarkets(rows: seq<Fill>, p: Fill -> bool) {
    forall f, g | f in rows && g in rows && f.market == g.market :: p(f) == p(g)
  }

  // The queue of one market is built by its own side alone.
  ghost predicate QueueSplits(all: Queues, one: Queues, other: Queues, market: string) {
    || (QueueOf(all, market) == QueueOf(one, market) && QueueOf(other, market) == [])
    || (QueueOf(all, market) == QueueOf(other, market) && QueueOf(one, market) == [])
  }

  // `side` says on which side of the grouping a market lies.
  ghost predicate Separated(b: Book, one: Book, other: Book, side: string -> bool) {
    && b.tally == Plus(one.tally, other.tally)
    && (forall m | side(m) :: QueueOf(b.queues, m) == QueueOf(one.queues, m) && QueueOf(other.queues, m) == [])
    && (forall m | !side(m) :: QueueOf(b.queues, m) == QueueOf(other.queues, m) && QueueOf(one.queues, m) == [])
  }

  lemma {:induction false} RunSplits(rows: seq<Fill>, p: Fill -> bool, side: string -> bool)
    requires forall f | f in rows :: p(f) == side(f.market)
    ensures Separated(Run(rows), Run(Filter(rows, p)), Run(Filter(rows, Not(p))), side)
  {
    hide Run;
    hide Step;
    hide Separated;
    if rows == [] {
      FilterNone(rows, p);
      FilterNone(rows, Not(p));
      RunEmpty();
      PlusNothing(Run([]).tally, Run([]).tally);
      NothingSeparates(Run([]), side);
    } else {
      var before, f := rows[..|rows| - 1], rows[|rows| - 1];
      assert rows == before + [f] && f in rows;
      RunSplits(before, p, side);
      FilterLast(before, f, p);
      FilterLast(before, f, Not(p));
      StepSplits(Run(before), Run(Filter(before, p)), Run(Filter(before, Not(p))), f, side);
      RunLast(before, f);
      if p(f) {
        RunLast(Filter(before, p), f);
      } else {
        RunLast(Filter(before, Not(p)), f);
      }
    }
  }

  lemma NothingSeparates(b: Book, side: string -> bool)
    requires b.queues == map[] && b.tally == Plus(b.tally, b.tally)
    ensures Separated(b, b, b, side)
  {
  }

  lemma PlusNothing(a: Tally, zero: Tally)
    requires zero == ZERO
    ensures Plus(a, zero) == a
  {
  }

  lemma FilterLast(before: seq<Fill>, f: Fill, p: Fill -> bool)
    ensures Filter(before + [f], p) == if p(f) then Filter(before, p) + [f] else Filter(before, p)
  {
    FilterConcat(before, [f], p);
    assert Filter([f], p) == if p(f) then [f] else [];
  }

  lemma RunLast(before: seq<Fill>, f: Fill)
    ensures Run(before + [f]) == Step(Run(before), f)
  {
    assert (before + [f])[..|before|] == before;
  }

  lemma PlusMoves(a: Tally, b: Tally, e: Tally)
    ensures Plus(Plus(a, b), e) == Plus(Plus(a, e), b) == Plus(a, Plus(b, e))
  {
  }

  lemma StepSplits(b: Book, one: Book, other: Book, f: Fill, side: string -> bool)
    requires Separated(b, one, other, side)
    ensures side(f.market) ==> Separated(Step(b, f), Step(one, f), other, side)
    ensures !side(f.market) ==> Separated(Step(b, f), one, Step(other, f), side)
  {
    hide Step;
    hide Separated;
    if side(f.market) {
      StepOnOneSide(b, one, other, f, side);
    } else {
      StepOnOtherSide(b, one, other, f, side);
    }
  }

  lemma StepOnOneSide(b: Book, one: Book, other: Book, f: Fill, side: string -> bool)
    requires Separated(b, one, other, side) && side(f.market)
    ensures Separated(Step(b, f), Step(one, f), other, side)
  {
    hide Effect;
    hide StepQueue;
    hide Plus;
    PlusMoves(one.tally, other.tally, Effect(QueueOf(b.queues, f.market), f));
  }

  lemma StepOnOtherSide(b: Book, one: Book, other: Book, f: Fill, side: string -> bool)
    requires Separated(b, one, other, side) && !side(f.market)
    ensures Separated(Step(b, f), one, Step(other, f), side)
  {
    hide Effect;
    hide StepQueue;
    hide Plus;
    PlusMoves(one.tally, other.tally, Effect(QueueOf(b.queues, f.market), f));
  }

  // ----- figures of the report

  datatype Figure = Gross | RealizedFees | Net | OpenCost | OpenUnits | UnrealizedPnl | TotalPnl

  function FigureOf(r: Report, figure: Figure): real {
    match figure
    case Gross => r.gross
    case RealizedFees => r.realizedFee
    case Net => r.net
    case OpenCost => r.openCost
    case OpenUnits => r.openQuantity
    case UnrealizedPnl => r.unrealized - r.exitFee
    case TotalPnl => r.total
  }

  // A sum over the markets of a term that vanishes on empty queues splits like the queues do.
  lemma QueueSumSplits(all: Queues, one: Queues, other: Queues, term: (seq<Lot>, string) -> real,
                       f: string -> real, f1: string -> real, f2: string -> real)
    requires forall m :: QueueSplits(all, one, other, m)
    requires forall m :: term([], m) == 0.0
    requires forall m :: f(m) == term(QueueOf(all, m), m)
    requires forall m :: f1(m) == term(QueueOf(one, m), m)
    requires forall m :: f2(m) == term(QueueOf(other, m), m)
    ensures SetSum(all.Keys, f) == SetSum(one.Keys, f1) + SetSum(other.Keys, f2)
  {
    var markets := all.Keys + one.Keys + other.Keys;
    SetSumSupport(all.Keys, markets, f);
    SetSumSupport(one.Keys, markets, f1);
    SetSumSupport(other.Keys, markets, f2);
    forall m ensures f(m) == f1(m) + f2(m) {
      assert QueueSplits(all, one, other, m);
    }
    SetSumAdd(markets, f1, f2, f);
  }

  lemma OpenUnitsSplit(all: Queues, one: Queues, other: Queues)
    requires forall m :: QueueSplits(all, one, other, m)
    ensures SetSum(all.Keys, OpenQuantity(all))
         == SetSum(one.Keys, OpenQuantity(one)) + SetSum(other.Keys, OpenQuantity(other))
  {
    QueueSumSplits(all, one, other, (q, m) => Total(q), OpenQuantity(all), OpenQuantity(one), OpenQuantity(other));
  }

  lemma OpenCostSplits(all: Queues, one: Queues, other: Queues)
    requires forall m :: QueueSplits(all, one, other, m)
    ensures SetSum(all.Keys, OpenWeight(all, CostBasis))
         == SetSum(one.Keys, OpenWeight(one, CostBasis)) + SetSum(other.Keys, OpenWeight(other, CostBasis))
  {
    QueueSumSplits(all, one, other, (q, m) => TotalWeight(q, CostBasis),
                   OpenWeight(all, CostBasis), OpenWeight(one, CostBasis), OpenWeight(other, CostBasis));
  }

  lemma UnrealizedSplits(all: Queues, one: Queues, other: Queues, prices: map<string, real>)
    requires forall m :: QueueSplits(all, one, other, m)
    ensures SetSum(all.Keys, Unrealized(all, prices))
         == SetSum(one.Keys, Unrealized(one, prices)) + SetSum(other.Keys, Unrealized(other, prices))
  {
    forall m ensures MarketUnrealized([], PriceOf(prices, m)) == 0.0 {
    }
    hide MarketUnrealized;
    QueueSumSplits(all, one, other, (q, m) => MarketUnrealized(q, PriceOf(prices, m)),
                   Unrealized(all, prices), Unrealized(one, prices), Unrealized(other, prices));
  }

  lemma ExitFeeSplits(all: Queues, one: Queues, other: Queues, prices: map<string, real>, feeRate: real)
    requires forall m :: QueueSplits(all, one, other, m)
    ensures SetSum(all.Keys, ExitFee(all, prices, feeRate))
         == SetSum(one.Keys, ExitFee(one, prices, feeRate)) + SetSum(other.Keys, ExitFee(other, prices, feeRate))
  {
    forall m ensures MarketExitFee([], PriceOf(prices, m), feeRate) == 0.0 {
    }
    hide MarketExitFee;
    QueueSumSplits(all, one, other, (q, m) => MarketExitFee(q, PriceOf(prices, m), feeRate),
                   ExitFee(all, prices, feeRate), ExitFee(one, prices, feeRate), ExitFee(other, prices, feeRate));
  }

  lemma ReportSplits(rows: seq<Fill>, p: Fill -> bool, prices: map<string, real>, feeRate: real, figure: Figure)
    requires WholeMarkets(rows, p)
    ensures FigureOf(ReportOf(rows, prices, feeRate), figure)
         == FigureOf(ReportOf(Filter(rows, p), prices, feeRate), figure)
          + FigureOf(ReportOf(Filter(rows, Not(p)), prices, feeRate), figure)
  {
    hide Run;
    hide StableSort;
    hide TradeFees;
    hide Filter;
    var key := ReplayKey();
    var ordered := StableSort(rows, key);
    SortKeeps(rows, key);
    FilterSort(rows, key, p);
    FilterSort(rows, key, Not(p));
    var side := (m: string) => exists f :: f in rows && f.market == m && p(f);
    forall f | f in ordered ensures p(f) == side(f.market) {
      assert f in multiset(ordered);
      assert f in rows;
    }
    RunSplits(ordered, p, side);
    var one, other := Filter(ordered, p), Filter(ordered, Not(p));
    forall m ensures QueueSplits(Run(ordered).queues, Run(one).queues, Run(other).queues, m) {
      assert side(m) || !side(m);
    }
    var all', one', other' := Run(ordered).queues, Run(one).queues, Run(other).queues;
    OpenUnitsSplit(all', one', other');
    OpenCostSplits(all', one', other');
    UnrealizedSplits(all', one', other', prices);
    ExitFeeSplits(all', one', other', prices, feeRate);
    RealizedFeeIsMatched(ordered);
    RealizedFeeIsMatched(one);
    RealizedFeeIsMatched(other);
  }

  // ----- grouping by a key

  function InGroups(key: Fill -> string, names: set<string>): Fill -> bool {
    (f: Fill) => key(f) in names
  }

  function GroupRows(rows: seq<Fill>, key: Fill -> string, name: string): seq<Fill> {
    Filter(rows, InGroups(key, {name}))
  }

  predicate KeyDetermined(rows: seq<Fill>, key: Fill -> string) {
    forall f, g | f in rows && g in rows && f.market == g.market :: key(f) == key(g)
  }

  ghost function GroupFigure(rows: seq<Fill>, key: Fill -> string, prices: map<string, real>,
                             feeRate: real, figure: Figure): string -> real
  {
    (name: string) => FigureOf(ReportOf(GroupRows(rows, key, name), prices, feeRate), figure)
  }

  lemma {:induction false} FilterTwice(rows: seq<Fill>, p: Fill -> bool, q: Fill -> bool, r: Fill -> bool)
    requires forall f | f in rows :: r(f) == (p(f) && q(f))
    ensures Filter(Filter(rows, p), q) == Filter(rows, r)
  {
    if rows != [] {
      FilterTwice(rows[1..], p, q, r);
      assert rows[0] in rows;
      if p(rows[0]) {
        assert ([rows[0]] + Filter(rows[1..], p))[1..] == Filter(rows[1..], p);
      }
    }
  }

  lemma {:induction false} FilterAll(rows: seq<Fill>, p: Fill -> bool)
    requires forall f | f in rows :: p(f)
    ensures Filter(rows, p) == rows
  {
    if rows != [] {
      assert rows[0] in rows;
      FilterAll(rows[1..], p);
    }
  }

  lemma {:induction false} FilterNone(rows: seq<Fill>, p: Fill -> bool)
    requires forall f | f in rows :: !p(f)
    ensures Filter(rows, p) == []
  {
    if rows != [] {
      assert rows[0] in rows;
      FilterNone(rows[1..], p);
    }
  }

  lemma {:induction false} GroupsSum(rows: seq<Fill>, key: Fill -> string, names: set<string>,
                                     prices: map<string, real>, feeRate: real, figure: Figure)
    requires KeyDetermined(rows, key)
    ensures FigureOf(ReportOf(Filter(rows, InGroups(key, names)), prices, feeRate), figure)
         == SetSum(names, GroupFigure(rows, key, prices, feeRate, figure))
    decreases |names|
  {
    hide ReportOf;
    var kept := Filter(rows, InGroups(key, names));
    FilterMembers(rows, InGroups(key, names));
    if names == {} {
      FilterNone(rows, InGroups(key, names));
      EmptyReport(prices, feeRate, figure);
    } else {
      var name :| name in names;
      var p := InGroups(key, {name});
      SetSumPick(names, name, GroupFigure(rows, key, prices, feeRate, figure));
      ReportSplits(kept, p, prices, feeRate, figure);
      FilterTwice(rows, InGroups(key, names), p, p);
      FilterTwice(rows, InGroups(key, names), Not(p), InGroups(key, names - {name}));
      GroupsSum(rows, key, names - {name}, prices, feeRate, figure);
    }
  }

  lemma EmptyReport(prices: map<string, real>, feeRate: real, figure: Figure)
    ensures FigureOf(ReportOf([], prices, feeRate), figure) == 0.0
  {
    assert Run([]).queues.Keys == {};
  }

  // Decomposition: whatever the grouping, as long as one market never spans two groups.
  lemma LedgerDecomposes(rows: seq<Fill>, key: Fill -> string, prices: map<string, real>, feeRate: real, figure: Figure)
    requires KeyDetermined(rows, key)
    ensures FigureOf(ReportOf(rows, prices, feeRate), figure)
         == SetSum(KeysOf(rows, key), GroupFigure(rows, key, prices, feeRate, figure))
  {
    hide ReportOf;
    var names := KeysOf(rows, key);
    FilterAll(rows, InGroups(key, names));
    GroupsSum(rows, key, names, prices, feeRate, figure);
  }

  function MarketKey(): Fill -> string { (f: Fill) => f.market }

  // Market by market: no hypothesis is left.
  lemma LedgerIsSumOfMarkets(rows: seq<Fill>, prices: map<string, real>, feeRate: real, figure: Figure)
    ensures FigureOf(ReportOf(rows, prices, feeRate), figure)
         == SetSum((set f | f in rows :: f.market), GroupFigure(rows, MarketKey(), prices, feeRate, figure))
  {
    hide ReportOf;
    assert KeysOf(rows, MarketKey()) == (set f | f in rows :: f.market);
    LedgerDecomposes(rows, MarketKey(), prices, feeRate, figure);
  }

  // Arrival order is irrelevant when no two rows share (executed_at, id).
  lemma ArrivalOrderIrrelevant(a: seq<Fill>, b: seq<Fill>, prices: map<string, real>, feeRate: real)
    requires multiset(a) == multiset(b) && DistinctKeys(a, ReplayKey())
    ensures ReportOf(a, prices, feeRate) == ReportOf(b, prices, feeRate)
  {
    SortIgnoresArrival(a, b, ReplayKey());
    SortKeeps(a, ReplayKey());
    SortKeeps(b, ReplayKey());
  }

  // ----- the grouping table by symbol

  function AfterLastDash(market: string): string {
    if '-' !in market then market
    else AfterLastDash(market[FirstDash(market) + 1..])
  }

  function FirstDash(s: string): (i: nat)
    requires '-' in s
    ensures i < |s| && s[i] == '-' && '-' !in s[..i]
  {
    if s[0] == '-' then 0 else 1 + FirstDash(s[1..])
  }

  function SymbolKey(): Fill -> string {
    (f: Fill) =>
      var raw := if f.symbol != "" then f.symbol else AfterLastDash(f.market);
      if raw == "" then "unknown" else raw
  }

  const GROUP_FEE_RATE := 0.0005

  lemma GroupLast(rows: seq<Fill>, i: nat, key: Fill -> string, name: string)
    requires i < |rows|
    ensures GroupRows(rows[..i + 1], key, name)
         == if key(rows[i]) == name then GroupRows(rows[..i], key, name) + [rows[i]] else GroupRows(rows[..i], key, name)
  {
    assert rows[..i + 1] == rows[..i] + [rows[i]];
    FilterLast(rows[..i], rows[i], InGroups(key, {name}));
  }

  function KeysOf(rows: seq<Fill>, key: Fill -> string): set<string> {
    set f | f in rows :: key(f)
  }

  lemma KeysLast(rows: seq<Fill>, i: nat, key: Fill -> string)
    requires i < |rows|
    ensures KeysOf(rows[..i + 1], key) == KeysOf(rows[..i], key) + {key(rows[i])}
  {
    assert rows[..i + 1] == rows[..i] + [rows[i]];
  }

  method GroupBySymbol(rows: seq<Fill>) returns (groups: map<string, seq<Fill>>)
    ensures groups.Keys == KeysOf(rows, SymbolKey())
    ensures forall name | name in groups :: groups[name] == GroupRows(rows, SymbolKey(), name)
  {
    hide GroupRows;
    hide KeysOf;
    groups := map[];
    assert KeysOf(rows[..0], SymbolKey()) == {} by { NoKeys(rows, SymbolKey()); }
    forall name ensures GroupRows(rows[..0], SymbolKey(), name) == [] {
      NoGroups(rows, SymbolKey(), name);
    }
    for i := 0 to |rows|
      invariant groups.Keys == KeysOf(rows[..i], SymbolKey())
      invariant forall name :: GroupRows(rows[..i], SymbolKey(), name) == if name in groups then groups[name] else []
    {
      var row := rows[i];
      var name := SymbolKey()(row);
      KeysLast(rows, i, SymbolKey());
      forall other ensures GroupRows(rows[..i + 1], SymbolKey(), other)
                        == if other == name then GroupRows(rows[..i], SymbolKey(), other) + [row]
                           else GroupRows(rows[..i], SymbolKey(), other)
      {
        GroupLast(rows, i, SymbolKey(), other);
      }
      groups := groups[name := (if name in groups then groups[name] else []) + [row]];
    }
    assert rows[..|rows|] == rows;
  }

  lemma NoKeys(rows: seq<Fill>, key: Fill -> string)
    ensures KeysOf(rows[..0], key) == {}
  {
  }

  lemma NoGroups(rows: seq<Fill>, key: Fill -> string, name: string)
    ensures GroupRows(rows[..0], key, name) == []
  {
  }

  method GroupedPnl(rows: seq<Fill>, prices: map<string, real>) returns (table: map<string, Report>)
    ensures table.Keys == KeysOf(rows, SymbolKey())
    ensures forall name | name in table ::
              table[name] == ReportOf(GroupRows(rows, SymbolKey(), name), prices, 0.0005)
  {
    hide GroupRows;
    hide SymbolKey;
    hide ReportOf;
    var groups := GroupBySymbol(rows);
    table := map[];
    var pending := groups.Keys;
    while pending != {}
      invariant pending <= groups.Keys && table.Keys == groups.Keys - pending
      invariant forall name | name in table ::
                  table[name] == ReportOf(GroupRows(rows, SymbolKey(), name), prices, GROUP_FEE_RATE)
      decreases |pending|
    {
      var name :| name in pending;
      pending := pending - {name};
      var report := ComputeRealizedPnl(groups[name], prices, GROUP_FEE_RATE);
      table := table[name := report];
    }
  }

  ghost function TableFigure(table: map<string, Report>, figure: Figure): string -> real {
    (name: string) => if name in table then FigureOf(table[name], figure) else 0.0
  }

  // The symbol table adds up to the ungrouped report when a market has one symbol.
  lemma SymbolTableSumsToWhole(rows: seq<Fill>, prices: map<string, real>, table: map<string, Report>, figure: Figure)
    requires KeyDetermined(rows, SymbolKey())
    requires table.Keys == KeysOf(rows, SymbolKey())
    requires forall name | name in table ::
               table[name] == ReportOf(GroupRows(rows, SymbolKey(), name), prices, GROUP_FEE_RATE)
    ensures SetSum(table.Keys, TableFigure(table, figure))
         == FigureOf(ReportOf(rows, prices, GROUP_FEE_RATE), figure)
  {
    hide ReportOf;
    LedgerDecomposes(rows, SymbolKey(), prices, GROUP_FEE_RATE, figure);
    SetSumAgree(table.Keys, TableFigure(table, figure), GroupFigure(rows, SymbolKey(), prices, GROUP_FEE_RATE, figure));
  }
}
