/** Python's stable `sorted` with a numeric key, and sums over sequences. */
module Sorting {
  function InsertAfter<T>(s: seq<T>, x: T, key: T -> real): seq<T> {
    if s == [] then [x]
    else if key(s[|s| - 1]) <= key(x) then s + [x]
    else InsertAfter(s[..|s| - 1], x, key) + [s[|s| - 1]]
  }

  function Sort<T>(s: seq<T>, key: T -> real): seq<T> {
    if s == [] then [] else InsertAfter(Sort(s[..|s| - 1], key), s[|s| - 1], key)
  }

  ghost predicate SortedBy<T>(s: seq<T>, key: T -> real) {
    forall i, j | 0 <= i < j < |s| :: key(s[i]) <= key(s[j])
  }

  function Sum<T>(s: seq<T>, f: T -> int): int {
    if s == [] then 0 else Sum(s[..|s| - 1], f) + f(s[|s| - 1])
  }

  lemma SumNext<T>(s: seq<T>, x: T, f: T -> int)
    ensures Sum(s + [x], f) == Sum(s, f) + f(x)
  {
    assert (s + [x])[..|s|] == s;
  }

  lemma SortedAppend<T>(s: seq<T>, x: T, key: T -> real)
    requires SortedBy(s, key) && forall i | 0 <= i < |s| :: key(s[i]) <= key(x)
    ensures SortedBy(s + [x], key)
  {}

  lemma {:induction false} InsertMembers<T>(s: seq<T>, x: T, key: T -> real)
    ensures multiset(InsertAfter(s, x, key)) == multiset(s) + multiset{x}
  {
    if s != [] && key(s[|s| - 1]) > key(x) {
      InsertMembers(s[..|s| - 1], x, key);
      LastOfMultiset(s);
    }
  }

  lemma {:induction false} InsertSorted<T>(s: seq<T>, x: T, key: T -> real, top: real)
    requires SortedBy(s, key) && key(x) <= top && forall i | 0 <= i < |s| :: key(s[i]) <= top
    ensures SortedBy(InsertAfter(s, x, key), key)
    ensures forall i | 0 <= i < |InsertAfter(s, x, key)| :: key(InsertAfter(s, x, key)[i]) <= top
  {
    if s != [] {
      var front, last := s[..|s| - 1], s[|s| - 1];
      if key(last) <= key(x) {
        assert forall i | 0 <= i < |s| - 1 :: key(s[i]) <= key(last);
        SortedAppend(s, x, key);
      } else {
        InsertSorted(front, x, key, key(last));
        SortedAppend(InsertAfter(front, x, key), last, key);
      }
    }
  }

  lemma SortedTop<T>(s: seq<T>, x: T, key: T -> real)
    requires SortedBy(s, key)
    ensures SortedBy(InsertAfter(s, x, key), key)
  {
    var top := if s == [] || key(s[|s| - 1]) <= key(x) then key(x) else key(s[|s| - 1]);
    forall i | 0 <= i < |s| ensures key(s[i]) <= top {
      if i < |s| - 1 { assert key(s[i]) <= key(s[|s| - 1]); }
    }
    InsertSorted(s, x, key, top);
  }

  lemma {:induction false} SortSorted<T>(s: seq<T>, key: T -> real)
    ensures SortedBy(Sort(s, key), key)
  {
    if s != [] {
      SortSorted(s[..|s| - 1], key);
      SortedTop(Sort(s[..|s| - 1], key), s[|s| - 1], key);
    }
  }

  lemma LastOfMultiset<T>(s: seq<T>)
    requires s != []
    ensures multiset(s) == multiset(s[..|s| - 1]) + multiset{s[|s| - 1]}
  {
    assert s == s[..|s| - 1] + [s[|s| - 1]];
  }

  lemma {:induction false} SortPermutes<T>(s: seq<T>, key: T -> real)
    ensures multiset(Sort(s, key)) == multiset(s)
  {
    if s != [] {
      SortPermutes(s[..|s| - 1], key);
      LastOfMultiset(s);
      InsertMembers(Sort(s[..|s| - 1], key), s[|s| - 1], key);
    }
  }

  lemma SortMembers<T>(s: seq<T>, key: T -> real)
    ensures |Sort(s, key)| == |s|
    ensures forall x :: x in Sort(s, key) <==> x in s
  {
    SortPermutes(s, key);
    assert |multiset(Sort(s, key))| == |multiset(s)|;
    forall x ensures x in Sort(s, key) <==> x in s {
      assert x in multiset(Sort(s, key)) <==> x in multiset(s);
    }
  }

  /** The elements with one key, in order. */
  function WithKey<T>(s: seq<T>, key: T -> real, v: real): seq<T> {
    if s == [] then []
    else WithKey(s[..|s| - 1], key, v) + (if key(s[|s| - 1]) == v then [s[|s| - 1]] else [])
  }

  lemma WithKeyNext<T>(s: seq<T>, x: T, key: T -> real, v: real)
    ensures WithKey(s + [x], key, v) == WithKey(s, key, v) + if key(x) == v then [x] else []
  {
    assert (s + [x])[..|s|] == s;
  }

  lemma {:induction false} InsertStable<T>(s: seq<T>, x: T, key: T -> real, v: real)
    requires SortedBy(s, key)
    ensures WithKey(InsertAfter(s, x, key), key, v) == WithKey(s + [x], key, v)
  {
    WithKeyNext(s, x, key, v);
    if s == [] {
      assert [] + [x] == [x];
    } else if key(s[|s| - 1]) > key(x) {
      var front, last := s[..|s| - 1], s[|s| - 1];
      InsertStable(front, x, key, v);
      WithKeyNext(InsertAfter(front, x, key), last, key, v);
      WithKeyNext(front, x, key, v);
    }
  }

  /** Sorting leaves elements with equal keys in their order. */
  lemma {:induction false} SortStable<T>(s: seq<T>, key: T -> real, v: real)
    ensures WithKey(Sort(s, key), key, v) == WithKey(s, key, v)
  {
    if s != [] {
      var front := s[..|s| - 1];
      SortStable(front, key, v);
      SortSorted(front, key);
      InsertStable(Sort(front, key), s[|s| - 1], key, v);
      WithKeyNext(Sort(front, key), s[|s| - 1], key, v);
    }
  }

  lemma {:induction false} SumInsert<T>(s: seq<T>, x: T, key: T -> real, f: T -> int)
    ensures Sum(InsertAfter(s, x, key), f) == Sum(s, f) + f(x)
  {
    if s == [] {
      assert Sum([x], f) == Sum([], f) + f(x) by { SumNext([], x, f); assert [] + [x] == [x]; }
    } else if key(s[|s| - 1]) <= key(x) {
      SumNext(s, x, f);
    } else {
      SumInsert(s[..|s| - 1], x, key, f);
      SumNext(InsertAfter(s[..|s| - 1], x, key), s[|s| - 1], f);
    }
  }

  lemma {:induction false} SumSort<T>(s: seq<T>, key: T -> real, f: T -> int)
    ensures Sum(Sort(s, key), f) == Sum(s, f)
  {
    if s != [] {
      SumSort(s[..|s| - 1], key, f);
      SumInsert(Sort(s[..|s| - 1], key), s[|s| - 1], key, f);
    }
  }

  lemma {:induction false} SumConcat<T>(a: seq<T>, b: seq<T>, f: T -> int)
    ensures Sum(a + b, f) == Sum(a, f) + Sum(b, f)
  {
    if b == [] {
      assert a + b == a;
    } else {
      SumConcat(a, b[..|b| - 1], f);
      assert (a + b)[..|a + b| - 1] == a + b[..|b| - 1];
    }
  }
}
