/** Sums over finite sets of names; the order of iteration does not matter. */
module RealSums {
  ghost function SetSum(s: set<string>, f: string -> real): real {
    if s == {} then 0.0 else
    var x :| x in s;
    f(x) + SetSum(s - {x}, f)
  }

  lemma {:induction false} SetSumPick(s: set<string>, x: string, f: string -> real)
    requires x in s
    ensures SetSum(s, f) == f(x) + SetSum(s - {x}, f)
    decreases |s|
  {
    var y :| y in s && SetSum(s, f) == f(y) + SetSum(s - {y}, f);
    if y != x {
      SetSumPick(s - {y}, x, f);
      SetSumPick(s - {x}, y, f);
      assert s - {y} - {x} == s - {x} - {y};
    }
  }

  lemma {:induction false} SetSumAgree(s: set<string>, f: string -> real, g: string -> real)
    requires forall x | x in s :: f(x) == g(x)
    ensures SetSum(s, f) == SetSum(s, g)
    decreases |s|
  {
    if s != {} {
      var x :| x in s;
      SetSumPick(s, x, f);
      SetSumPick(s, x, g);
      SetSumAgree(s - {x}, f, g);
    }
  }

  lemma {:induction false} SetSumUnion(a: set<string>, b: set<string>, f: string -> real)
    requires a !! b
    ensures SetSum(a + b, f) == SetSum(a, f) + SetSum(b, f)
    decreases |a|
  {
    if a == {} {
      assert a + b == b;
    } else {
      var x :| x in a;
      SetSumPick(a, x, f);
      SetSumPick(a + b, x, f);
      assert a + b - {x} == (a - {x}) + b;
      SetSumUnion(a - {x}, b, f);
    }
  }

  // Adding terms that are zero changes nothing.
  lemma {:induction false} SetSumSupport(a: set<string>, b: set<string>, f: string -> real)
    requires a <= b
    requires forall x | x in b - a :: f(x) == 0.0
    ensures SetSum(a, f) == SetSum(b, f)
    decreases |b - a|
  {
    if b - a == {} {
      assert a == b;
    } else {
      var x :| x in b - a;
      SetSumPick(b, x, f);
      assert (b - {x}) - a < b - a;
      assert |(b - {x}) - a| < |b - a| by {
        assert b - a == ((b - {x}) - a) + {x};
      }
      SetSumSupport(a, b - {x}, f);
    }
  }

  // Pointwise linear combinations carry over to the sums.
  lemma {:induction false} SetSumAdd(s: set<string>, f: string -> real, g: string -> real, h: string -> real)
    requires forall x | x in s :: h(x) == f(x) + g(x)
    ensures SetSum(s, h) == SetSum(s, f) + SetSum(s, g)
    decreases |s|
  {
    if s != {} {
      var x :| x in s;
      SetSumPick(s, x, f);
      SetSumPick(s, x, g);
      SetSumPick(s, x, h);
      SetSumAdd(s - {x}, f, g, h);
    }
  }
}
