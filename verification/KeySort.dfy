/** Stable sorting by a pair of integers, the order in which the ledger replays
    fills and in which reconciliation places positions. */
module KeySort {
  type Key = (int, int)

  predicate Before(a: Key, b: Key) {
    a.0 < b.0 || (a.0 == b.0 && a.1 < b.1)
  }

  predicate Sorted<T>(s: seq<T>, key: T -> Key) {
    forall i, j | 0 <= i < j < |s| :: !Before(key(s[j]), key(s[i]))
  }

  predicate DistinctKeys<T>(s: seq<T>, key: T -> Key) {
    forall i, j | 0 <= i < j < |s| :: key(s[i]) != key(s[j])
  }

  function Filter<T>(s: seq<T>, p: T -> bool): seq<T> {
    if s == [] then []
    else if p(s[0]) then [s[0]] + Filter(s[1..], p)
    else Filter(s[1..], p)
  }

  // Places x in front of the first element whose key is not smaller.
  function Insert<T>(x: T, s: seq<T>, key: T -> Key): seq<T> {
    if s == [] then [x]
    else if Before(key(s[0]), key(x)) then [s[0]] + Insert(x, s[1..], key)
    else [x] + s
  }

  function StableSort<T>(s: seq<T>, key: T -> Key): seq<T> {
    if s == [] then [] else Insert(s[0], StableSort(s[1..], key), key)
  }

  lemma {:induction false} InsertKeeps<T>(x: T, s: seq<T>, key: T -> Key)
    requires Sorted(s, key)
    ensures Sorted(Insert(x, s, key), key)
    ensures multiset(Insert(x, s, key)) == multiset{x} + multiset(s)
  {
    if s == [] {
    } else if Before(key(s[0]), key(x)) {
      InsertKeeps(x, s[1..], key);
      var t := Insert(x, s[1..], key);
      assert s == [s[0]] + s[1..];
      forall j | 0 <= j < |t| ensures !Before(key(t[j]), key(s[0])) {
        assert t[j] in multiset(t);
        assert t[j] == x || t[j] in s[1..];
      }
    } else {
      forall j | 0 <= j < |s| ensures !Before(key(s[j]), key(x)) {
        assert j == 0 || !Before(key(s[j]), key(s[0]));
      }
    }
  }

  lemma {:induction false} SortKeeps<T>(s: seq<T>, key: T -> Key)
    ensures Sorted(StableSort(s, key), key)
    ensures multiset(StableSort(s, key)) == multiset(s)
    ensures |StableSort(s, key)| == |s|
  {
    if s == [] {
    } else {
      SortKeeps(s[1..], key);
      InsertKeeps(s[0], StableSort(s[1..], key), key);
      assert s == [s[0]] + s[1..];
      assert |multiset(StableSort(s, key))| == |multiset(s)|;
    }
  }

  lemma HeadsAgree<T>(a: seq<T>, b: seq<T>, key: T -> Key)
    requires Sorted(a, key) && Sorted(b, key)
    requires DistinctKeys(a, key)
    requires multiset(a) == multiset(b)
    requires a != [] && b != []
    ensures a[0] == b[0]
  {
    assert a[0] in multiset(b) && b[0] in multiset(a);
    var j :| 0 <= j < |b| && b[j] == a[0];
    var i :| 0 <= i < |a| && a[i] == b[0];
    assert !Before(key(b[j]), key(b[0]));
    assert !Before(key(a[i]), key(a[0]));
    assert key(a[0]) == key(a[i]);
  }

  lemma TailElements<T>(s: seq<T>)
    requires s != []
    ensures multiset(s[1..]) == multiset(s) - multiset{s[0]}
  {
    assert s == [s[0]] + s[1..];
  }

  // A sorted sequence with distinct keys is determined by its elements.
  lemma {:induction false} SortedIsUnique<T>(a: seq<T>, b: seq<T>, key: T -> Key)
    requires Sorted(a, key) && Sorted(b, key)
    requires DistinctKeys(a, key)
    requires multiset(a) == multiset(b)
    ensures a == b
  {
    assert |a| == |multiset(a)| == |multiset(b)| == |b|;
    if a != [] {
      HeadsAgree(a, b, key);
      TailElements(a);
      TailElements(b);
      SortedIsUnique(a[1..], b[1..], key);
      assert a == [a[0]] + a[1..] && b == [b[0]] + b[1..];
    }
  }

  // With distinct keys the order in which rows arrive does not matter.
  lemma SortIgnoresArrival<T>(a: seq<T>, b: seq<T>, key: T -> Key)
    requires multiset(a) == multiset(b)
    requires DistinctKeys(a, key)
    ensures StableSort(a, key) == StableSort(b, key)
  {
    SortKeeps(a, key);
    SortKeeps(b, key);
    SortDistinct(a, key);
    SortedIsUnique(StableSort(a, key), StableSort(b, key), key);
  }

  lemma {:induction false} SortDistinct<T>(s: seq<T>, key: T -> Key)
    requires DistinctKeys(s, key)
    ensures DistinctKeys(StableSort(s, key), key)
  {
    if s != [] {
      SortDistinct(s[1..], key);
      SortKeeps(s[1..], key);
      var t := StableSort(s[1..], key);
      forall j | 0 <= j < |t| ensures key(t[j]) != key(s[0]) {
        assert t[j] in multiset(t);
        assert t[j] in s[1..];
      }
      InsertDistinct(s[0], t, key);
    }
  }

  lemma {:induction false} InsertDistinct<T>(x: T, s: seq<T>, key: T -> Key)
    requires DistinctKeys(s, key)
    requires forall j | 0 <= j < |s| :: key(s[j]) != key(x)
    ensures DistinctKeys(Insert(x, s, key), key)
    ensures forall y | y in Insert(x, s, key) :: y == x || y in s
  {
    if s != [] && Before(key(s[0]), key(x)) {
      InsertDistinct(x, s[1..], key);
      var t := Insert(x, s[1..], key);
      forall j | 0 <= j < |t| ensures key(t[j]) != key(s[0]) {
        assert t[j] in t;
        assert t[j] == x || t[j] in s[1..];
      }
    }
  }

  lemma {:induction false} FilterInsert<T>(x: T, s: seq<T>, key: T -> Key, p: T -> bool)
    requires Sorted(s, key)
    ensures Filter(Insert(x, s, key), p)
         == if p(x) then Insert(x, Filter(s, p), key) else Filter(s, p)
  {
    if s == [] {
    } else if Before(key(s[0]), key(x)) {
      FilterInsert(x, s[1..], key, p);
      var t := Insert(x, s[1..], key);
      assert ([s[0]] + t)[1..] == t;
    } else {
      assert ([x] + s)[1..] == s;
      if p(x) {
        InsertInFront(x, s, key, p);
      }
    }
  }

  lemma {:induction false} InsertInFront<T>(x: T, s: seq<T>, key: T -> Key, p: T -> bool)
    requires forall j | 0 <= j < |s| :: !Before(key(s[j]), key(x))
    ensures Insert(x, Filter(s, p), key) == [x] + Filter(s, p)
  {
    if s != [] && !p(s[0]) {
      InsertInFront(x, s[1..], key, p);
    }
  }

  // Sorting commutes with keeping only some of the rows.
  lemma {:induction false} FilterSort<T>(s: seq<T>, key: T -> Key, p: T -> bool)
    ensures Filter(StableSort(s, key), p) == StableSort(Filter(s, p), key)
  {
    if s != [] {
      FilterSort(s[1..], key, p);
      SortKeeps(s[1..], key);
      FilterInsert(s[0], StableSort(s[1..], key), key, p);
      if p(s[0]) {
        assert ([s[0]] + Filter(s[1..], p))[1..] == Filter(s[1..], p);
      }
    }
  }

  lemma {:induction false} FilterConcat<T>(a: seq<T>, b: seq<T>, p: T -> bool)
    ensures Filter(a + b, p) == Filter(a, p) + Filter(b, p)
  {
    if a == [] {
      assert a + b == b;
    } else {
      assert (a + b)[1..] == a[1..] + b;
      FilterConcat(a[1..], b, p);
    }
  }

  lemma {:induction false} FilterMembers<T>(s: seq<T>, p: T -> bool)
    ensures forall x :: x in Filter(s, p) <==> x in s && p(x)
    ensures |Filter(s, p)| <= |s|
  {
    if s != [] {
      FilterMembers(s[1..], p);
      assert s == [s[0]] + s[1..];
    }
  }

  lemma {:induction false} SortedIsFixed<T>(s: seq<T>, key: T -> Key)
    requires Sorted(s, key)
    ensures StableSort(s, key) == s
  {
    if s != [] {
      SortedIsFixed(s[1..], key);
    }
  }
}
