/** What a client order id says: its parts, read back from the text. */
module OrderIdReading {
  import opened Basics
  import opened ClientOrderIds

  // ----- digits

  lemma DigitsRead(d: nat)
    requires d < 36
    ensures DigitOf(d) as int == if d < 10 then '0' as int + d else 'a' as int + d - 10
  {
  }

  function Power(k: nat): nat { if k == 0 then 1 else 36 * Power(k - 1) }

  // The digits of a text in front of and behind a place.
  lemma {:induction false} ReadAppends(a: string, b: string)
    ensures Read(a + b, 36) == Read(a, 36) * Power(|b|) + Read(b, 36)
  {
    if b == [] {
      assert a + b == a;
    } else {
      var front, last := b[..|b| - 1], b[|b| - 1];
      ReadAppends(a, front);
      assert a + b == a + front + [last];
      Shift(Read(a, 36), Power(|front|), Read(front, 36), ValueOf(last));
      hide ValueOf;
      hide Power;
      assert Power(|b|) == 36 * Power(|front|) by { PowerNext(|front|); }
    }
  }

  lemma PowerNext(k: nat)
    ensures Power(k + 1) == 36 * Power(k)
  {
  }

  lemma Shift(x: nat, p: nat, y: nat, v: nat)
    ensures (x * p + y) * 36 + v == x * (36 * p) + (y * 36 + v)
  {
  }

  lemma {:induction false} ReadBelow(s: string)
    ensures Read(s, 36) < Power(|s|)
  {
    if s != [] {
      ReadBelow(s[..|s| - 1]);
    }
  }

  lemma EightDigits()
    ensures Power(8) == 2821109907456
  {
    assert Power(4) == 1679616;
    PowerNext(4);
    PowerNext(5);
    PowerNext(6);
    PowerNext(7);
  }

  lemma Remainder(x: nat, q: nat, r: nat, k: nat)
    requires x == q * k + r && r < k
    ensures x % k == r
  {
    var d := x / k - q;
    assert d * k == r - x % k;
    WholeMultiples(d, k);
  }

  lemma WholeMultiples(d: int, k: int)
    requires k >= 0
    ensures d >= 1 ==> d * k >= k
    ensures d <= -1 ==> d * k <= -k
  {
  }

  // The last eight base-36 digits of a number are its remainder by 36 to the eighth.
  lemma LastEightReads(n: nat)
    ensures var stamp := LastEight(Written(n, 36));
            && Read(stamp, 36) == n % 2821109907456
            && 1 <= |stamp| <= 8 && '-' !in stamp
            && (|stamp| < 8 && n >= 1 ==> stamp[0] != '0')
  {
    hide Written;
    hide Read;
    ReadWritten(n, 36);
    var s := Written(n, 36);
    if |s| <= 8 {
      ShortStamp(s);
    } else {
      LongStamp(s);
      assert forall c | c in s[|s| - 8..] :: c in s;
    }
  }

  lemma ShortStamp(s: string)
    requires |s| <= 8
    ensures Read(s, 36) == Read(s, 36) % 2821109907456
  {
    EightDigits();
    ReadBelow(s);
    PowerGrows(|s|, 8);
    hide Read;
    hide Power;
  }

  lemma LongStamp(s: string)
    requires |s| > 8
    ensures Read(s[|s| - 8..], 36) == Read(s, 36) % 2821109907456
  {
    EightDigits();
    var a, b := s[..|s| - 8], s[|s| - 8..];
    assert s == a + b && |b| == 8;
    ReadAppends(a, b);
    ReadBelow(b);
    hide Read;
    hide Power;
    hide ValueOf;
    var k := Power(8);
    Remainder(Read(s, 36), Read(a, 36), Read(b, 36), k);
  }

  lemma {:induction false} PowerGrows(i: nat, j: nat)
    requires i <= j
    ensures Power(i) <= Power(j)
  {
    if i < j {
      PowerGrows(i, j - 1);
      PowerNext(j - 1);
    }
  }

  // ----- the parts

  predicate IsNumber(field: string, n: nat) {
    && |field| >= 4 && Read(field, 10) == n && '-' !in field
    && (n >= 1 && |field| > 4 ==> field[0] != '0')
  }

  predicate IsStamp(stamp: string, clock: int) {
    && 1 <= |stamp| <= 8 && '-' !in stamp && (clock >= 1 && |stamp| < 8 ==> stamp[0] != '0')
    && Read(stamp, 36) == (if clock <= 0 then 0 else clock % 2821109907456)
  }

  // The id is that of a position loop or another controlled run, the run's hash, the symbol,
  // the side, the number and the time, cut after 36 characters.
  predicate Spells(id: string, run: string, hash: Hash8, symbol: string, side: Side, field: string, stamp: string, nonce: string) {
    var start := (if |run| >= 8 && run[..8] == "posloop-" then "pv1" else "ctl") + "-" + hash + "-";
    var whole := start + symbol + "-" + [if side.BuySide? then 'b' else 's'] + "-" + field + "-" + (stamp + "-" + nonce);
    id == if |whole| <= 36 then whole else whole[..36]
  }

  lemma IdReads(run: string, hash: Hash8, symbol: string, side: Side, n: nat, draw: Draw)
    ensures exists field, stamp :: IsNumber(field, n) && IsStamp(stamp, draw.clock)
              && Spells(ClientOrderId(run, hash, symbol, side, n, draw), run, hash, symbol, side, field, stamp, draw.nonce)
  {
    var clock := if draw.clock <= 0 then 0 else draw.clock;
    var field, stamp := Padded(n), LastEight(Written(clock, 36));
    PaddedReads(n);
    LastEightReads(clock);
    assert IsNumber(field, n) && IsStamp(stamp, draw.clock);
    hide *;
    SpeltOut(run, hash, symbol, side, n, draw);
  }

  lemma SpeltOut(run: string, hash: Hash8, symbol: string, side: Side, n: nat, draw: Draw)
    ensures Spells(ClientOrderId(run, hash, symbol, side, n, draw), run, hash, symbol, side, Padded(n),
                   LastEight(Written(if draw.clock <= 0 then 0 else draw.clock, 36)), draw.nonce)
  {
    hide Padded;
    hide LastEight;
    hide Written;
    assert "posloop-" <= run <==> |run| >= 8 && run[..8] == "posloop-";
  }

  // The symbol is what follows the last dash of the market, in capitals.
  lemma {:induction false} SymbolReads(market: string, dash: bool, head: string, tail: string)
    requires '-' !in tail && market == (if dash then head + "-" + tail else tail)
    ensures var symbol := SymbolOf(market);
            && |symbol| == |tail|
            && forall k | 0 <= k < |tail| ::
                 symbol[k] as int == (if 'a' <= tail[k] <= 'z' then tail[k] as int - 32 else tail[k] as int)
  {
    if tail == [] {
      assert dash ==> market[|market| - 1] == '-';
    } else {
      var front, last := tail[..|tail| - 1], tail[|tail| - 1];
      assert market[|market| - 1] == last;
      assert market[..|market| - 1] == if dash then head + "-" + front else front;
      SymbolReads(market[..|market| - 1], dash, head, front);
    }
  }

  // ----- the numbers

  predicate Finishes(e: Event, run: string) { e.Finish? && e.run == run }

  predicate Issues(e: Event, run: string) { e.Issue? && e.run == run }

  function Numbered(events: seq<Event>, run: string, from: nat): set<int> {
    set k | from <= k < |events| && Issues(events[k], run)
  }

  lemma NumberedNext(events: seq<Event>, run: string, from: nat)
    requires from < |events|
    ensures var before := Numbered(events[..|events| - 1], run, from);
            && |events| - 1 !in before
            && Numbered(events, run, from) == if Issues(events[|events| - 1], run) then before + {|events| - 1} else before
  {
  }

  // A run's number is how many ids it was given since its last finish.
  lemma {:induction false} NumberReads(events: seq<Event>, run: string, from: nat)
    requires from <= |events| && (from > 0 ==> Finishes(events[from - 1], run))
    requires forall k | from <= k < |events| :: !Finishes(events[k], run)
    ensures IssuedSince(events, run) == |Numbered(events, run, from)|
  {
    if from == |events| {
      assert Numbered(events, run, from) == {};
    } else {
      NumberReads(events[..|events| - 1], run, from);
      NumberedNext(events, run, from);
      hide Numbered;
    }
  }

  // The k-th event's id carries that number.
  lemma IssuedIdReads(events: seq<Event>, hashOf: string -> Hash8, k: nat, from: nat)
    requires k < |events| && events[k].Issue? && from <= k && (from > 0 ==> Finishes(events[from - 1], events[k].run))
    requires forall j | from <= j < k :: !Finishes(events[j], events[k].run)
    ensures exists field, stamp ::
              && IsNumber(field, |set j | from <= j <= k && Issues(events[j], events[k].run)|)
              && IsStamp(stamp, events[k].draw.clock)
              && Spells(IdAt(events, hashOf, k), events[k].run, hashOf(events[k].run), SymbolOf(events[k].market), events[k].side,
                        field, stamp, events[k].draw.nonce)
  {
    hide Spells;
    hide IsNumber;
    hide IsStamp;
    hide ClientOrderId;
    var e, prefix := events[k], events[..k + 1];
    NumberReads(prefix, e.run, from);
    assert Numbered(prefix, e.run, from) == (set j | from <= j <= k && Issues(events[j], e.run));
    IdReads(e.run, hashOf(e.run), SymbolOf(e.market), e.side, IssuedSince(prefix, e.run), e.draw);
    var field, stamp :| IsNumber(field, IssuedSince(prefix, e.run)) && IsStamp(stamp, e.draw.clock)
                        && Spells(IdAt(events, hashOf, k), e.run, hashOf(e.run), SymbolOf(e.market), e.side, field, stamp, e.draw.nonce);
    assert IsNumber(field, |set j | from <= j <= k && Issues(events[j], e.run)|);
  }
}
