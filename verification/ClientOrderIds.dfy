/** Client order ids: the per-run sequence counter and the 36-character id built from it. */
module ClientOrderIds {
  import opened Basics

  const ALPHABET := "0123456789abcdefghijklmnopqrstuvwxyz"
  const MAX_LENGTH := 36

  type Hash8 = s: string | |s| == 8 witness "00000000"

  // ----- positional notation

  function DigitOf(d: nat): char
    requires d < 36
  {
    ALPHABET[d]
  }

  function ValueOf(c: char): nat {
    if '0' <= c <= '9' then c as int - '0' as int
    else if 'a' <= c <= 'z' then c as int - 'a' as int + 10
    else 0
  }

  function Written(n: nat, base: nat): string
    requires 2 <= base <= 36
  {
    if n < base then [DigitOf(n)] else Shrinks(n, base); Written(n / base, base) + [DigitOf(n % base)]
  }

  function Read(s: string, base: nat): nat {
    if s == [] then 0 else Read(s[..|s| - 1], base) * base + ValueOf(s[|s| - 1])
  }

  lemma Shrinks(n: nat, base: nat)
    requires 2 <= base <= n
    ensures 0 < n / base < n
  {
    assert n == n / base * base + n % base;
    assert n / base >= 1;
    assert n / base * 2 <= n / base * base;
  }

  lemma DigitReads(d: nat)
    requires d < 36
    ensures ValueOf(DigitOf(d)) == d && DigitOf(d) != '-'
  {
  }

  // Reading back what was written gives the number; no digit is a dash.
  lemma {:induction false} ReadWritten(n: nat, base: nat)
    requires 2 <= base <= 36
    ensures Read(Written(n, base), base) == n
    ensures '-' !in Written(n, base) && |Written(n, base)| >= 1
    ensures n >= 1 ==> Written(n, base)[0] != '0'
  {
    if n < base {
      DigitReads(n);
      assert Written(n, base) == [] + [DigitOf(n)];
      assert DigitOf(0) == '0';
      assert n >= 1 ==> DigitOf(n) != '0';
    } else {
      Shrinks(n, base);
      ReadWritten(n / base, base);
      DigitReads(n % base);
      hide ValueOf;
      hide DigitOf;
    }
  }

  lemma WrittenStep(n: nat)
    ensures Written(n, 36) == if n < 36 then [DigitOf(n % 36)] else Written(n / 36, 36) + [DigitOf(n % 36)]
    ensures Written(0, 36) == "0"
  {
  }

  method Base36(value: int) returns (text: string)
    ensures text == Written(if value <= 0 then 0 else value, 36)
    ensures value >= 0 ==> Read(text, 36) == value
  {
    hide Written;
    hide Read;
    hide DigitOf;
    hide Reverse;
    WrittenStep(0);
    ReadWritten(if value <= 0 then 0 else value, 36);
    if value <= 0 {
      return "0";
    }
    var left, chars: string := value, [];
    ReverseEmpty();
    while left > 0
      invariant 0 <= left <= value
      invariant Written(value, 36) == (if left > 0 then Written(left, 36) else []) + Reverse(chars)
    {
      WrittenStep(left);
      ReverseNext(chars, DigitOf(left % 36));
      chars := chars + [DigitOf(left % 36)];
      left := left / 36;
    }
    text := Reverse(chars);
  }

  lemma ReverseEmpty()
    ensures Reverse("") == ""
  {
  }

  function Reverse(s: string): string {
    if s == [] then [] else [s[|s| - 1]] + Reverse(s[..|s| - 1])
  }

  lemma ReverseNext(s: string, c: char)
    ensures Reverse(s + [c]) == [c] + Reverse(s)
  {
    assert (s + [c])[..|s|] == s;
  }

  // ----- the sequence field: at least four decimal digits

  function Zeros(k: nat): string {
    seq(k, _ => '0')
  }

  function Padded(n: nat): string {
    var digits := Written(n, 10);
    Zeros(if |digits| < 4 then 4 - |digits| else 0) + digits
  }

  lemma {:induction false} LeadingZeros(k: nat, s: string)
    ensures Read(Zeros(k) + s, 10) == Read(s, 10)
  {
    if s != [] {
      var front := s[..|s| - 1];
      LeadingZeros(k, front);
      assert Zeros(k) + s == Zeros(k) + front + [s[|s| - 1]];
    } else {
      assert Zeros(k) + s == Zeros(k);
      if k > 0 {
        LeadingZeros(k - 1, []);
        assert Zeros(k - 1) + [] == Zeros(k - 1);
        assert Zeros(k) == Zeros(k - 1) + ['0'];
      }
    }
  }

  // The field determines the number, has no dash, and starts with a zero only below 1000.
  lemma PaddedReads(n: nat)
    ensures Read(Padded(n), 10) == n && '-' !in Padded(n) && |Padded(n)| >= 4
    ensures n >= 1 && |Padded(n)| > 4 ==> Padded(n)[0] != '0'
  {
    ReadWritten(n, 10);
    var digits := Written(n, 10);
    LeadingZeros(if |digits| < 4 then 4 - |digits| else 0, digits);
  }

  lemma DecimalStep(n: nat)
    ensures Written(n, 10) == (if n < 10 then [] else Written(n / 10, 10)) + [DigitOf(n % 10)]
  {
  }

  // Numbers that differ in the last digit only are equally wide and agree before it.
  lemma SameWidth(n: nat, m: nat)
    requires n / 10 == m / 10
    ensures |Padded(n)| == |Padded(m)| && Padded(n)[..|Padded(n)| - 1] == Padded(m)[..|Padded(m)| - 1]
  {
    hide Written;
    hide DigitOf;
    DecimalStep(n);
    DecimalStep(m);
    var x, y := Written(n, 10), Written(m, 10);
    var z := Zeros(if |x| < 4 then 4 - |x| else 0);
    var head := if n < 10 then [] else Written(n / 10, 10);
    assert z + x == z + head + [DigitOf(n % 10)];
    assert z + y == z + head + [DigitOf(m % 10)];
  }

  lemma ThousandsAreWide(n: nat)
    ensures n < 1000 ==> |Written(n, 10)| <= 3
    ensures n >= 1000 ==> |Written(n, 10)| >= 4
  {
    if n >= 10 {
      assert Written(n, 10) == Written(n / 10, 10) + [DigitOf(n % 10)];
      if n / 10 >= 10 {
        assert Written(n / 10, 10) == Written(n / 10 / 10, 10) + [DigitOf(n / 10 % 10)];
        if n / 10 / 10 >= 10 {
          ReadWritten(n / 10 / 10 / 10, 10);
          assert Written(n / 10 / 10, 10) == Written(n / 10 / 10 / 10, 10) + [DigitOf(n / 10 / 10 % 10)];
        }
      }
    }
  }

  lemma TenfoldAppends(n: nat)
    requires n >= 1000
    ensures Padded(10 * n) == Padded(n) + ['0']
  {
    ThousandsAreWide(n);
    ThousandsAreWide(10 * n);
    assert 10 * n / 10 == n && 10 * n % 10 == 0;
    assert Written(10 * n, 10) == Written(n, 10) + ['0'];
  }

  // ----- the id

  // Two outside readings: milliseconds on the clock and four random characters.
  datatype Draw = Draw(clock: int, nonce: string)

  function LastEight(s: string): string {
    if |s| <= 8 then s else s[|s| - 8..]
  }

  function Truncate(s: string): string {
    if |s| <= MAX_LENGTH then s else s[..MAX_LENGTH]
  }

  function Mode(run: string): string {
    if "posloop-" <= run then "pv1" else "ctl"
  }

  // The part of a market name after its last dash, in capitals (letters outside a-z are left alone).
  function SymbolOf(market: string): string {
    if market == [] || market[|market| - 1] == '-' then []
    else SymbolOf(market[..|market| - 1]) + [Upper(market[|market| - 1])]
  }

  function Upper(c: char): char {
    if 'a' <= c <= 'z' then (c as int - 'a' as int + 'A' as int) as char else c
  }

  lemma {:induction false} SymbolsHaveNoDash(market: string)
    ensures '-' !in SymbolOf(market)
  {
    if market != [] && market[|market| - 1] != '-' {
      SymbolsHaveNoDash(market[..|market| - 1]);
    }
  }

  function Start(run: string, hash: Hash8): (s: string)
    ensures |s| == 13
  {
    Mode(run) + "-" + hash + "-"
  }

  function Joined(start: string, symbol: string, side: char, field: string, rest: string): string {
    start + symbol + "-" + [side] + "-" + field + "-" + rest
  }

  function ClientOrderId(run: string, hash: Hash8, symbol: string, side: Side, n: nat, draw: Draw): string {
    Truncate(Joined(Start(run, hash), symbol, if side.BuySide? then 'b' else 's', Padded(n),
                    LastEight(Written(if draw.clock <= 0 then 0 else draw.clock, 36)) + "-" + draw.nonce))
  }

  // Where each part of an id lies.
  lemma JoinedAt(start: string, symbol: string, side: char, field: string, rest: string)
    ensures var id, at := Joined(start, symbol, side, field, rest), |start| + |symbol|;
            && |id| == at + 4 + |field| + |rest| && id[at] == '-'
            && (forall k | 0 <= k < |symbol| :: id[|start| + k] == symbol[k])
            && (forall k | 0 <= k < |field| :: id[at + 3 + k] == field[k])
            && id[at + 3 + |field|] == '-'
            && id[..at + 3 + |field|] == start + symbol + "-" + [side] + "-" + field
  {
  }

  // The whole sequence field is kept and told apart from every other one.
  predicate Fits(symbol: string, n: nat) {
    || |symbol| + |Padded(n)| <= 19
    || (|symbol| + |Padded(n)| == 20 && n < 1000)
  }

  lemma CutAt(a: string, b: string, k: nat)
    requires Truncate(a) == Truncate(b) && k < MAX_LENGTH && k < |a|
    ensures k < |b| && a[k] == b[k]
  {
    assert |Truncate(a)| > k && Truncate(a)[k] == a[k];
    assert Truncate(b)[k] == b[k];
  }

  // Equal ids carry equal symbols, whatever follows, if the symbol and its dash survive on one side.
  lemma SameSymbolLength(start: string, s1: string, s2: string, c1: char, c2: char, f1: string, f2: string, r1: string, r2: string)
    requires '-' !in s1 && '-' !in s2 && |start| == 13 && |s1| <= 16
    requires Truncate(Joined(start, s1, c1, f1, r1)) == Truncate(Joined(start, s2, c2, f2, r2))
    ensures |s1| == |s2|
  {
    var a, b := Joined(start, s1, c1, f1, r1), Joined(start, s2, c2, f2, r2);
    JoinedAt(start, s1, c1, f1, r1);
    JoinedAt(start, s2, c2, f2, r2);
    hide Joined;
    if |s1| < |s2| {
      CutAt(a, b, 13 + |s1|);
    } else if |s2| < |s1| {
      CutAt(b, a, 13 + |s2|);
    }
  }

  // With equally long symbols a field that is kept whole together with its dash is the other's field.
  lemma SameField(start: string, s1: string, s2: string, c1: char, c2: char, f1: string, f2: string, r1: string, r2: string)
    requires '-' !in f1 && '-' !in f2 && |start| == 13 && |s1| == |s2| && |s1| + |f1| <= 19
    requires Truncate(Joined(start, s1, c1, f1, r1)) == Truncate(Joined(start, s2, c2, f2, r2))
    ensures f1 == f2
  {
    var a, b := Joined(start, s1, c1, f1, r1), Joined(start, s2, c2, f2, r2);
    JoinedAt(start, s1, c1, f1, r1);
    JoinedAt(start, s2, c2, f2, r2);
    hide Joined;
    var at := 16 + |s1|;
    if |f1| < |f2| {
      var next := f2[|f1|];
      assert next == b[at + |f1|];
      CutAt(a, b, at + |f1|);
    } else if |f2| < |f1| {
      var next := f1[|f2|];
      assert next == a[at + |f2|];
      CutAt(b, a, at + |f2|);
    } else {
      forall k | 0 <= k < |f1| ensures f1[k] == f2[k] {
        CutAt(a, b, at + k);
      }
    }
  }

  // A field that ends exactly where the id is cut is a start of the other's field.
  lemma FieldStarts(start: string, s1: string, s2: string, c1: char, c2: char, f1: string, f2: string, r1: string, r2: string)
    requires |start| == 13 && |s1| == |s2| && |s1| + |f1| == 20 && |f1| <= |f2|
    requires Truncate(Joined(start, s1, c1, f1, r1)) == Truncate(Joined(start, s2, c2, f2, r2))
    ensures f1 <= f2
  {
    var a, b := Joined(start, s1, c1, f1, r1), Joined(start, s2, c2, f2, r2);
    JoinedAt(start, s1, c1, f1, r1);
    JoinedAt(start, s2, c2, f2, r2);
    hide Joined;
    forall k | 0 <= k < |f1| ensures f1[k] == f2[k] {
      CutAt(a, b, 16 + |s1| + k);
    }
  }

  lemma SameIdSameNumber(run: string, hash: Hash8, s1: string, s2: string, side1: Side, side2: Side,
                         n: nat, m: nat, d1: Draw, d2: Draw)
    requires '-' !in s1 && '-' !in s2 && n >= 1 && m >= 1 && Fits(s1, n)
    requires ClientOrderId(run, hash, s1, side1, n, d1) == ClientOrderId(run, hash, s2, side2, m, d2)
    ensures n == m
  {
    PaddedReads(n);
    PaddedReads(m);
    var start, f1, f2 := Start(run, hash), Padded(n), Padded(m);
    var c1, c2 := if side1.BuySide? then 'b' else 's', if side2.BuySide? then 'b' else 's';
    var r1 := LastEight(Written(if d1.clock <= 0 then 0 else d1.clock, 36)) + "-" + d1.nonce;
    var r2 := LastEight(Written(if d2.clock <= 0 then 0 else d2.clock, 36)) + "-" + d2.nonce;
    SameSymbolLength(start, s1, s2, c1, c2, f1, f2, r1, r2);
    if |s1| + |f1| <= 19 {
      SameField(start, s1, s2, c1, c2, f1, f2, r1, r2);
    } else {
      ThousandsAreWide(n);
      assert f1[0] == '0';
      FieldStarts(start, s1, s2, c1, c2, f1, f2, r1, r2);
      assert f1 == f2;
    }
  }

  // An id whose field fits differs from every id of the run with another number: any symbols, sides and draws.
  lemma FittingIdIsUnique(run: string, hash: Hash8, s1: string, s2: string, side1: Side, side2: Side,
                          n: nat, m: nat, d1: Draw, d2: Draw)
    requires '-' !in s1 && '-' !in s2 && n >= 1 && m >= 1 && n != m && Fits(s1, n)
    ensures ClientOrderId(run, hash, s1, side1, n, d1) != ClientOrderId(run, hash, s2, side2, m, d2)
  {
    if ClientOrderId(run, hash, s1, side1, n, d1) == ClientOrderId(run, hash, s2, side2, m, d2) {
      SameIdSameNumber(run, hash, s1, s2, side1, side2, n, m, d1, d2);
    }
  }

  // The number whose id is the same once the field is cut.
  function Twin(symbol: string, n: nat): nat {
    if |symbol| + |Padded(n)| == 20 then 10 * n else if n % 10 < 9 then n + 1 else n - 1
  }

  lemma CutIdHasATwin(run: string, hash: Hash8, symbol: string, side: Side, n: nat, d1: Draw, d2: Draw)
    requires n >= 1 && !Fits(symbol, n)
    ensures Twin(symbol, n) >= 1 && Twin(symbol, n) != n
    ensures ClientOrderId(run, hash, symbol, side, n, d1) == ClientOrderId(run, hash, symbol, side, Twin(symbol, n), d2)
  {
    hide Joined;
    hide Written;
    hide Padded;
    hide Read;
    hide LastEight;
    hide Start;
    var m := Twin(symbol, n);
    var start, f1, f2 := Start(run, hash), Padded(n), Padded(m);
    var c := if side.BuySide? then 'b' else 's';
    var r1 := LastEight(Written(if d1.clock <= 0 then 0 else d1.clock, 36)) + "-" + d1.nonce;
    var r2 := LastEight(Written(if d2.clock <= 0 then 0 else d2.clock, 36)) + "-" + d2.nonce;
    PaddedReads(n);
    PaddedReads(m);
    var keep := if |symbol| + |f1| == 20 then |f1| else |f1| - 1;
    if |symbol| + |f1| == 20 {
      TenfoldAppends(n);
    } else {
      assert n / 10 == m / 10;
      SameWidth(n, m);
    }
    assert |f2| >= keep && f1[..keep] == f2[..keep];
    SameBeforeTheCut(start, symbol, c, f1, f2, keep, r1, r2);
  }

  lemma SameBeforeTheCut(start: string, symbol: string, c: char, f1: string, f2: string, keep: nat, r1: string, r2: string)
    requires keep <= |f1| && keep <= |f2| && f1[..keep] == f2[..keep]
    requires |start| == 13 && |symbol| + keep >= 20
    ensures Truncate(Joined(start, symbol, c, f1, r1)) == Truncate(Joined(start, symbol, c, f2, r2))
  {
    var head := start + symbol + "-" + [c] + "-";
    var a, b := Joined(start, symbol, c, f1, r1), Joined(start, symbol, c, f2, r2);
    assert a == head + f1 + "-" + r1 && b == head + f2 + "-" + r2;
    assert a[..|head| + keep] == head + f1[..keep];
    assert b[..|head| + keep] == head + f2[..keep];
    assert a[..MAX_LENGTH] == a[..|head| + keep][..MAX_LENGTH];
    assert b[..MAX_LENGTH] == b[..|head| + keep][..MAX_LENGTH];
  }

  // For every order number: another number of the run can produce the same id exactly when the field does not fit.
  lemma SharedExactlyWhenCut(run: string, hash: Hash8, symbol: string, side: Side, n: nat, draw: Draw)
    requires '-' !in symbol && n >= 1
    ensures (exists m: nat, other: Side, d: Draw :: m >= 1 && m != n
              && ClientOrderId(run, hash, symbol, other, m, d) == ClientOrderId(run, hash, symbol, side, n, draw))
            <==> !Fits(symbol, n)
  {
    if Fits(symbol, n) {
      forall m: nat, other: Side, d: Draw | m >= 1 && m != n
        ensures ClientOrderId(run, hash, symbol, other, m, d) != ClientOrderId(run, hash, symbol, side, n, draw)
      {
        FittingIdIsUnique(run, hash, symbol, symbol, side, other, n, m, draw, d);
      }
    } else {
      CutIdHasATwin(run, hash, symbol, side, n, draw, draw);
    }
  }

  // ----- the counter, over any interleaving of runs

  datatype Event = Issue(run: string, market: string, side: Side, draw: Draw) | Finish(run: string)

  // The number of ids a run was given since it last finished.
  function IssuedSince(events: seq<Event>, run: string): nat {
    if events == [] then 0
    else
      var before, last := events[..|events| - 1], events[|events| - 1];
      if last.run != run then IssuedSince(before, run)
      else if last.Finish? then 0
      else IssuedSince(before, run) + 1
  }

  function IdAt(events: seq<Event>, hashOf: string -> Hash8, k: nat): string
    requires k < |events| && events[k].Issue?
  {
    var e := events[k];
    ClientOrderId(e.run, hashOf(e.run), SymbolOf(e.market), e.side, IssuedSince(events[..k + 1], e.run), e.draw)
  }

  class OrderCounters {
    var bySeq: map<string, nat>
    ghost var history: seq<Event>

    ghost predicate Valid()
      reads this
    {
      forall run: string :: (if run in bySeq then bySeq[run] else 0) == IssuedSince(history, run)
    }

    constructor ()
      ensures Valid() && history == []
    {
      bySeq, history := map[], [];
    }

    method NewClientOrderId(run: string, hashOf: string -> Hash8, market: string, side: Side, draw: Draw) returns (id: string)
      requires Valid()
      modifies this
      ensures Valid() && history == old(history) + [Issue(run, market, side, draw)]
      ensures id == IdAt(history, hashOf, |old(history)|)
    {
      hide IssuedSince;
      hide Joined;
      hide Written;
      hide Read;
      hide Padded;
      hide SymbolOf;
      hide Start;
      hide Truncate;
      hide LastEight;
      var current := (if run in bySeq then bySeq[run] else 0) + 1;
      bySeq := bySeq[run := current];
      history := history + [Issue(run, market, side, draw)];
      NextEvent(old(history), Issue(run, market, side, draw));
      assert history[..|old(history)| + 1] == history;
      var stamp := Base36(draw.clock);
      id := Truncate(Joined(Start(run, hashOf(run)), SymbolOf(market), if side.BuySide? then 'b' else 's', Padded(current),
                            LastEight(stamp) + "-" + draw.nonce));
    }

    method FinishRun(run: string)
      requires Valid()
      modifies this
      ensures Valid() && history == old(history) + [Finish(run)]
    {
      bySeq := bySeq - {run};
      history := history + [Finish(run)];
      NextEvent(old(history), Finish(run));
    }
  }

  lemma NextEvent(events: seq<Event>, e: Event)
    ensures forall run: string :: IssuedSince(events + [e], run)
                                  == if e.run != run then IssuedSince(events, run)
                                     else if e.Finish? then 0 else IssuedSince(events, run) + 1
  {
    assert (events + [e])[..|events|] == events;
  }

  // Between two finishes of a run its numbers strictly increase.
  lemma {:induction false} NumbersIncrease(events: seq<Event>, run: string, i: nat, j: nat)
    requires i < j < |events| && events[j] .Issue? && events[j].run == run
    requires forall k | i < k < j :: !(events[k].Finish? && events[k].run == run)
    ensures IssuedSince(events[..i + 1], run) < IssuedSince(events[..j + 1], run)
    decreases j
  {
    NextEvent(events[..j], events[j]);
    assert events[..j] + [events[j]] == events[..j + 1];
    NeverDrops(events, run, i, j);
  }

  lemma {:induction false} NeverDrops(events: seq<Event>, run: string, i: nat, j: nat)
    requires i < j <= |events|
    requires forall k | i < k < j :: !(events[k].Finish? && events[k].run == run)
    ensures IssuedSince(events[..i + 1], run) <= IssuedSince(events[..j], run)
    decreases j
  {
    if j > i + 1 {
      NeverDrops(events, run, i, j - 1);
      NextEvent(events[..j - 1], events[j - 1]);
      assert events[..j - 1] + [events[j - 1]] == events[..j];
    }
  }

  // Two ids of one run, neither finished in between, differ as soon as one of the two fields fits.
  lemma IdsInARunDiffer(events: seq<Event>, hashOf: string -> Hash8, i: nat, j: nat)
    requires i < j < |events| && events[i].Issue? && events[j].Issue? && events[i].run == events[j].run
    requires forall k | i < k < j :: !(events[k].Finish? && events[k].run == events[i].run)
    requires || Fits(SymbolOf(events[i].market), IssuedSince(events[..i + 1], events[i].run))
             || Fits(SymbolOf(events[j].market), IssuedSince(events[..j + 1], events[j].run))
    ensures IdAt(events, hashOf, i) != IdAt(events, hashOf, j)
  {
    hide ClientOrderId;
    hide Fits;
    var a, b, run := events[i], events[j], events[i].run;
    var s, t := SymbolOf(a.market), SymbolOf(b.market);
    var n, m := IssuedSince(events[..i + 1], run), IssuedSince(events[..j + 1], run);
    SymbolsHaveNoDash(a.market);
    SymbolsHaveNoDash(b.market);
    NumbersIncrease(events, run, i, j);
    NextEvent(events[..i], a);
    assert events[..i] + [a] == events[..i + 1];
    if Fits(s, n) {
      FittingIdIsUnique(run, hashOf(run), s, t, a.side, b.side, n, m, a.draw, b.draw);
    } else {
      FittingIdIsUnique(run, hashOf(run), t, s, b.side, a.side, m, n, b.draw, a.draw);
    }
  }
}
