/**
 Stable sorting by a numeric key, as performed by the library sorts the sources call:
 order-book levels by price (ascending or descending) and source prices by value.
 */
module Sorting {

  predicate SortedBy<T>(s: seq<T>, key: T -> real) {
    forall i, j :: 0 <= i < j < |s| ==> key(s[i]) <= key(s[j])
  }

  /** The key under which plain numbers are sorted. */
  function Self(x: real): real {
    x
  }

  /** Puts `x` before the first element whose key is at least its own. */
  function Insert<T>(x: T, s: seq<T>, key: T -> real): seq<T> {
    if s == [] || key(x) <= key(s[0]) then [x] + s
    else [s[0]] + Insert(x, s[1..], key)
  }

  function Sort<T>(s: seq<T>, key: T -> real): seq<T> {
    if s == [] then [] else Insert(s[0], Sort(s[1..], key), key)
  }

  lemma {:induction false} InsertPermutes<T>(x: T, s: seq<T>, key: T -> real)
    ensures multiset(Insert(x, s, key)) == multiset([x] + s)
  {
    if s != [] && key(x) > key(s[0]) {
      InsertPermutes(x, s[1..], key);
      assert s == [s[0]] + s[1..];
    }
  }

  lemma {:induction false} InsertSorts<T>(x: T, s: seq<T>, key: T -> real)
    requires SortedBy(s, key)
    ensures SortedBy(Insert(x, s, key), key)
  {
    if s != [] && key(x) > key(s[0]) {
      var rest := Insert(x, s[1..], key);
      InsertSorts(x, s[1..], key);
      InsertPermutes(x, s[1..], key);
      forall j | 0 <= j < |rest|
        ensures key(s[0]) <= key(rest[j])
      {
        assert rest[j] in multiset(rest);
        assert rest[j] in [x] + s[1..];
      }
    }
  }

  lemma {:induction false} SortCorrect<T>(s: seq<T>, key: T -> real)
    ensures multiset(Sort(s, key)) == multiset(s)
    ensures SortedBy(Sort(s, key), key)
    ensures |Sort(s, key)| == |s|
  {
    if s != [] {
      var rest := Sort(s[1..], key);
      SortCorrect(s[1..], key);
      InsertPermutes(s[0], rest, key);
      InsertSorts(s[0], rest, key);
      assert s == [s[0]] + s[1..];
    }
    assert |Sort(s, key)| == |multiset(Sort(s, key))|;
  }

  /** The subsequence of elements whose key is `k`. */
  function WithKey<T>(s: seq<T>, key: T -> real, k: real): seq<T> {
    if s == [] then []
    else (if key(s[0]) == k then [s[0]] else []) + WithKey(s[1..], key, k)
  }

  lemma {:induction false} InsertStable<T>(x: T, s: seq<T>, key: T -> real, k: real)
    ensures WithKey(Insert(x, s, key), key, k) == WithKey([x] + s, key, k)
  {
    if s != [] && key(x) > key(s[0]) {
      InsertStable(x, s[1..], key, k);
      assert ([x] + s)[1..] == s;
      assert ([x] + s[1..])[1..] == s[1..];
      assert ([s[0]] + Insert(x, s[1..], key))[1..] == Insert(x, s[1..], key);
    }
  }

  /** The sort is stable: elements with equal keys keep their relative order. */
  lemma {:induction false} SortStable<T>(s: seq<T>, key: T -> real, k: real)
    ensures WithKey(Sort(s, key), key, k) == WithKey(s, key, k)
  {
    if s != [] {
      var rest := Sort(s[1..], key);
      SortStable(s[1..], key, k);
      InsertStable(s[0], rest, key, k);
      assert ([s[0]] + rest)[1..] == rest;
    }
  }

  /** Numbers have one sorted arrangement. */
  lemma {:induction false} SortedUnique(s: seq<real>, t: seq<real>)
    requires multiset(s) == multiset(t)
    requires SortedBy(s, Self) && SortedBy(t, Self)
    ensures s == t
  {
    hide SortedBy;
    assert |s| == |multiset(s)| == |multiset(t)| == |t|;
    if s != [] {
      FirstIsLeast(s, t);
      FirstIsLeast(t, s);
      var s', t' := s[1..], t[1..];
      assert s == [s[0]] + s' && t == [t[0]] + t';
      assert multiset(s') == multiset(s) - multiset{s[0]};
      assert multiset(t') == multiset(t) - multiset{s[0]};
      TailSorted(s);
      TailSorted(t);
      SortedUnique(s', t');
    }
  }

  lemma TailSorted(s: seq<real>)
    requires s != [] && SortedBy(s, Self)
    ensures SortedBy(s[1..], Self)
  {
    forall i, j | 0 <= i < j < |s| - 1
      ensures Self(s[1..][i]) <= Self(s[1..][j])
    {
      assert Self(s[i + 1]) <= Self(s[j + 1]);
    }
  }

  lemma FirstIsLeast(s: seq<real>, t: seq<real>)
    requires multiset(s) == multiset(t) && s != [] && t != []
    requires SortedBy(s, Self)
    ensures s[0] <= t[0]
  {
    assert t[0] in multiset(t);
    assert t[0] in s;
    var i :| 0 <= i < |s| && s[i] == t[0];
    assert i > 0 ==> Self(s[0]) <= Self(s[i]);
  }
}
