/** Stable sorting by a numeric key, largest first: the order the store
    applies for `sort({date: -1})` and `{$sort: {total: -1}}`. Elements with
    equal keys keep their relative order. */
module Sorting {

  predicate SortedDesc<T>(s: seq<T>, key: T -> real) {
    forall i, j :: 0 <= i < j < |s| ==> key(s[i]) >= key(s[j])
  }

  /** Puts `x` in front of the first element with a smaller key, so that it
      stays ahead of the elements whose key equals its own. */
  function Insert<T>(x: T, s: seq<T>, key: T -> real): (r: seq<T>)
    requires SortedDesc(s, key)
    ensures |r| == |s| + 1
    ensures r[0] == x || (s != [] && r[0] == s[0])
    ensures SortedDesc(r, key)
  {
    if s == [] || key(x) >= key(s[0]) then [x] + s
    else
      var rest := Insert(x, s[1..], key);
      assert key(s[0]) >= key(rest[0]);
      [s[0]] + rest
  }

  /** Inserting adds exactly the one element. */
  lemma {:induction false} InsertPermutes<T>(x: T, s: seq<T>, key: T -> real)
    requires SortedDesc(s, key)
    ensures multiset(Insert(x, s, key)) == multiset(s) + multiset{x}
  {
    if s == [] || key(x) >= key(s[0]) {
      assert Insert(x, s, key) == [x] + s;
    } else {
      var rest := Insert(x, s[1..], key);
      InsertPermutes(x, s[1..], key);
      assert s == [s[0]] + s[1..];
      calc {
        multiset(Insert(x, s, key));
        multiset([s[0]] + rest);
        multiset([s[0]]) + multiset(rest);
        multiset([s[0]]) + multiset(s[1..]) + multiset{x};
        multiset([s[0]] + s[1..]) + multiset{x};
      }
    }
  }

  /** Any slice of a sorted sequence is sorted. */
  lemma SliceSorted<T>(s: seq<T>, a: int, b: int, key: T -> real)
    requires 0 <= a <= b <= |s|
    requires SortedDesc(s, key)
    ensures SortedDesc(s[a..b], key)
  {
    var r := s[a..b];
    forall i, j | 0 <= i < j < |r| ensures key(r[i]) >= key(r[j]) {
      assert r[i] == s[a + i];
      assert r[j] == s[a + j];
    }
  }

  /** Insertion sort: the input reordered, keys non-increasing. */
  function SortDesc<T>(s: seq<T>, key: T -> real): (r: seq<T>)
    ensures SortedDesc(r, key)
    ensures multiset(r) == multiset(s)
    ensures |r| == |s|
  {
    if s == [] then []
    else
      var t := SortDesc(s[1..], key);
      InsertPermutes(s[0], t, key);
      assert s == [s[0]] + s[1..];
      assert multiset(s) == multiset{s[0]} + multiset(s[1..]);
      Insert(s[0], t, key)
  }

  /** Sorting neither adds nor drops elements. */
  lemma SortKeepsElements<T>(s: seq<T>, key: T -> real, x: T)
    ensures x in SortDesc(s, key) <==> x in s
  {
    var r := SortDesc(s, key);
    assert x in r <==> x in multiset(r);
    assert x in s <==> x in multiset(s);
  }

  function SumReal<T>(s: seq<T>, f: T -> real): real {
    if s == [] then 0.0 else f(s[0]) + SumReal(s[1..], f)
  }

  function SumInt<T>(s: seq<T>, f: T -> int): int {
    if s == [] then 0 else f(s[0]) + SumInt(s[1..], f)
  }

  lemma {:induction false} InsertSums<T>(x: T, s: seq<T>, key: T -> real, f: T -> real, g: T -> int)
    requires SortedDesc(s, key)
    ensures SumReal(Insert(x, s, key), f) == f(x) + SumReal(s, f)
    ensures SumInt(Insert(x, s, key), g) == g(x) + SumInt(s, g)
  {
    if s != [] && key(x) < key(s[0]) {
      InsertSums(x, s[1..], key, f, g);
      var r := Insert(x, s, key);
      assert r[1..] == Insert(x, s[1..], key);
    }
  }

  /** Sorting does not change any sum over the elements. */
  lemma {:induction false} SortKeepsSums<T>(s: seq<T>, key: T -> real, f: T -> real, g: T -> int)
    ensures SumReal(SortDesc(s, key), f) == SumReal(s, f)
    ensures SumInt(SortDesc(s, key), g) == SumInt(s, g)
  {
    if s != [] {
      SortKeepsSums(s[1..], key, f, g);
      InsertSums(s[0], SortDesc(s[1..], key), key, f, g);
    }
  }
}
