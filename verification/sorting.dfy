/**
 * The library sort that several days call (`slice::sort` on integers and on
 * packets), modelled as a stable insertion sort over a comparison `le`
 * ("the first may come before the second"). Only the result matters to the
 * callers: a permutation of the input in non-decreasing order.
 */
module Sorting {
  import opened Util

  /** Every two values are related one way or the other. */
  ghost predicate Total<T(!new)>(le: (T, T) -> bool)
  {
    forall a, b :: le(a, b) || le(b, a)
  }

  ghost predicate Transitive<T(!new)>(le: (T, T) -> bool)
  {
    forall a, b, c :: le(a, b) && le(b, c) ==> le(a, c)
  }

  /** Non-decreasing order: every earlier element may come before every later one. */
  predicate SortedBy<T>(s: seq<T>, le: (T, T) -> bool)
  {
    forall i, j :: 0 <= i < j < |s| ==> le(s[i], s[j])
  }

  /** Inserts `x` in front of the first element it may come before. */
  function InsertBy<T>(x: T, s: seq<T>, le: (T, T) -> bool): (r: seq<T>)
    ensures multiset(r) == multiset(s) + multiset{x}
    ensures |r| == |s| + 1
  {
    if s == [] then [x]
    else if le(x, s[0]) then [x] + s
    else
      assert s == [s[0]] + s[1..];
      [s[0]] + InsertBy(x, s[1..], le)
  }

  /** Insertion sort from the back, so that equal elements keep their order. */
  function SortBy<T>(s: seq<T>, le: (T, T) -> bool): (r: seq<T>)
    ensures multiset(r) == multiset(s)
    ensures |r| == |s|
  {
    if s == [] then []
    else
      assert s == [s[0]] + s[1..];
      InsertBy(s[0], SortBy(s[1..], le), le)
  }

  lemma {:induction false} InsertBySorted<T(!new)>(x: T, s: seq<T>, le: (T, T) -> bool)
    requires Total(le) && Transitive(le)
    requires SortedBy(s, le)
    ensures SortedBy(InsertBy(x, s, le), le)
    decreases |s|
  {
    if s == [] {
    } else if le(x, s[0]) {
      var r := [x] + s;
      forall i, j | 0 <= i < j < |r|
        ensures le(r[i], r[j])
      {
        if i > 0 {
          assert r[i] == s[i - 1] && r[j] == s[j - 1];
        } else if j > 1 {
          assert r[j] == s[j - 1];
          assert le(s[0], s[j - 1]);
        }
      }
    } else {
      var t := InsertBy(x, s[1..], le);
      InsertBySorted(x, s[1..], le);
      var r := [s[0]] + t;
      forall j | 0 <= j < |t|
        ensures le(s[0], t[j])
      {
        assert t[j] in multiset(t);
        assert t[j] in multiset(s[1..]) + multiset{x};
        if t[j] != x {
          assert t[j] in multiset(s[1..]);
          var k :| 0 <= k < |s[1..]| && s[1..][k] == t[j];
          assert s[k + 1] == t[j];
        }
      }
      forall i, j | 0 <= i < j < |r|
        ensures le(r[i], r[j])
      {
        if i > 0 {
          assert r[i] == t[i - 1] && r[j] == t[j - 1];
        } else {
          assert r[j] == t[j - 1];
        }
      }
    }
  }

  /** The result of `SortBy` is a non-decreasing permutation of its input. */
  lemma {:induction false} SortBySorted<T(!new)>(s: seq<T>, le: (T, T) -> bool)
    requires Total(le) && Transitive(le)
    ensures SortedBy(SortBy(s, le), le)
    ensures multiset(SortBy(s, le)) == multiset(s)
    decreases |s|
  {
    if s != [] {
      SortBySorted(s[1..], le);
      InsertBySorted(s[0], SortBy(s[1..], le), le);
    }
  }

  /** The usual order of integers, as a comparison to sort by. */
  predicate IntLe(a: int, b: int) { a <= b }

  lemma IntLeTotalPreorder()
    ensures Total(IntLe) && Transitive(IntLe)
  {
  }

  /** Sorting integers keeps exactly the same elements. */
  lemma SortedElements(s: seq<int>)
    ensures SortedBy(SortBy<int>(s, IntLe), IntLe)
    ensures forall x :: x in SortBy<int>(s, IntLe) <==> x in s
  {
    var t := SortBy<int>(s, IntLe);
    IntLeTotalPreorder();
    SortBySorted<int>(s, IntLe);
    forall x
      ensures x in t <==> x in s
    {
      assert x in t <==> x in multiset(t);
      assert x in s <==> x in multiset(s);
    }
  }

  /** The first element of a sorted sequence is the least of its elements. */
  lemma SortedFirst(s: seq<int>, c: set<int>)
    requires |s| > 0 && forall x :: x in s <==> x in c
    ensures c != {} && SortBy<int>(s, IntLe)[0] == SetMin(c)
  {
    var x0 := s[0];
    assert x0 in s;
    assert x0 in c;
    var t := SortBy<int>(s, IntLe);
    SortedElements(s);
    var lo := SetMin(c);
    assert t[0] in t;
    assert lo in t;
    var i :| 0 <= i < |t| && t[i] == lo;
    assert i == 0 || IntLe(t[0], t[i]);
  }

  /** The last element of a sorted sequence is the greatest of its elements. */
  lemma SortedLast(s: seq<int>, c: set<int>)
    requires |s| > 0 && forall x :: x in s <==> x in c
    ensures c != {} && SortBy<int>(s, IntLe)[|s| - 1] == SetMax(c)
  {
    var x0 := s[0];
    assert x0 in s;
    assert x0 in c;
    var t := SortBy<int>(s, IntLe);
    SortedElements(s);
    var hi := SetMax(c);
    assert t[|t| - 1] in t;
    assert hi in t;
    var j :| 0 <= j < |t| && t[j] == hi;
    assert j == |t| - 1 || IntLe(t[j], t[|t| - 1]);
  }

  /** How many elements satisfy `p`. */
  function CountWhere<T>(s: seq<T>, p: T -> bool): (n: nat)
    ensures n <= |s|
  {
    if s == [] then 0 else (if p(s[0]) then 1 else 0) + CountWhere(s[1..], p)
  }

  lemma {:induction false} CountWhereAppend<T>(a: seq<T>, b: seq<T>, p: T -> bool)
    ensures CountWhere(a + b, p) == CountWhere(a, p) + CountWhere(b, p)
    decreases |a|
  {
    if a != [] {
      assert (a + b)[0] == a[0] && (a + b)[1..] == a[1..] + b;
      CountWhereAppend(a[1..], b, p);
    } else {
      assert a + b == b;
    }
  }

  lemma {:induction false} CountWhereInsert<T>(x: T, s: seq<T>, le: (T, T) -> bool, p: T -> bool)
    ensures CountWhere(InsertBy(x, s, le), p) == CountWhere(s, p) + (if p(x) then 1 else 0)
    decreases |s|
  {
    if s != [] && !le(x, s[0]) {
      var r := InsertBy(x, s, le);
      assert r[1..] == InsertBy(x, s[1..], le);
      CountWhereInsert(x, s[1..], le, p);
    } else if s != [] {
      assert ([x] + s)[1..] == s;
    }
  }

  /** Sorting does not change how many elements satisfy a property. */
  lemma {:induction false} CountWhereSort<T>(s: seq<T>, le: (T, T) -> bool, p: T -> bool)
    ensures CountWhere(SortBy(s, le), p) == CountWhere(s, p)
    decreases |s|
  {
    if s != [] {
      CountWhereSort(s[1..], le, p);
      CountWhereInsert(s[0], SortBy(s[1..], le), le, p);
    }
  }
}
