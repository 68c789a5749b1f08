/** Descending sorts: Python's stable `sorted(..., reverse=True)` and an in-place sort with unspecified tie order. */
module Sorting {
  import opened Sequences

  ghost predicate SortedDesc<T>(s: seq<T>, key: T -> real) {
    forall i, j :: 0 <= i < j < |s| ==> key(s[i]) >= key(s[j])
  }

  function InsertDesc<T>(x: T, s: seq<T>, key: T -> real): seq<T> {
    if s == [] || key(x) >= key(s[0]) then [x] + s else [s[0]] + InsertDesc(x, s[1..], key)
  }

  /** Python's `sorted(s, key=key, reverse=True)`: elements with equal keys keep their order. */
  function SortDesc<T>(s: seq<T>, key: T -> real): seq<T> {
    if s == [] then [] else InsertDesc(s[0], SortDesc(s[1..], key), key)
  }

  lemma InsertDescPermutes<T>(x: T, s: seq<T>, key: T -> real)
    ensures multiset(InsertDesc(x, s, key)) == multiset{x} + multiset(s)
  {
    if s != [] && key(x) < key(s[0]) {
      InsertDescPermutes(x, s[1..], key);
      assert s == [s[0]] + s[1..];
    }
  }

  lemma InsertDescSorted<T>(x: T, s: seq<T>, key: T -> real)
    requires SortedDesc(s, key)
    ensures SortedDesc(InsertDesc(x, s, key), key)
  {
    if s != [] && key(x) < key(s[0]) {
      var rest := InsertDesc(x, s[1..], key);
      InsertDescSorted(x, s[1..], key);
      InsertDescPermutes(x, s[1..], key);
      forall i | 0 <= i < |rest| ensures key(s[0]) >= key(rest[i]) {
        assert rest[i] in multiset(rest);
        assert rest[i] == x || rest[i] in s[1..];
      }
    }
  }

  /** The stable sort returns a permutation of its input in descending key order. */
  lemma {:induction false} SortDescCorrect<T>(s: seq<T>, key: T -> real)
    ensures multiset(SortDesc(s, key)) == multiset(s)
    ensures |SortDesc(s, key)| == |s|
    ensures SortedDesc(SortDesc(s, key), key)
  {
    if s != [] {
      SortDescCorrect(s[1..], key);
      InsertDescPermutes(s[0], SortDesc(s[1..], key), key);
      InsertDescSorted(s[0], SortDesc(s[1..], key), key);
      assert s == [s[0]] + s[1..];
    }
    PermutationLength(SortDesc(s, key), s);
  }

  lemma {:induction false} InsertDescFilter<T>(p: T -> bool, x: T, s: seq<T>, key: T -> real)
    requires SortedDesc(s, key)
    ensures Filter(p, InsertDesc(x, s, key))
         == if p(x) then InsertDesc(x, Filter(p, s), key) else Filter(p, s)
  {
    if s == [] || key(x) >= key(s[0]) {
      assert ([x] + s)[1..] == s;
      InsertDescAtFront(p, x, s, key);
    } else {
      var rest := InsertDesc(x, s[1..], key);
      assert ([s[0]] + rest)[1..] == rest;
      InsertDescFilter(p, x, s[1..], key);
      if p(s[0]) {
        assert Filter(p, s)[1..] == Filter(p, s[1..]);
      } else {
        assert Filter(p, s) == Filter(p, s[1..]);
      }
    }
  }

  lemma {:induction false} InsertDescAtFront<T>(p: T -> bool, x: T, s: seq<T>, key: T -> real)
    requires forall y :: y in s ==> key(x) >= key(y)
    ensures InsertDesc(x, Filter(p, s), key) == [x] + Filter(p, s)
  {
    if Filter(p, s) != [] {
      FilterMember(p, s, Filter(p, s)[0]);
    }
  }

  /** Stability in its strongest form: sorting commutes with filtering by any predicate. */
  lemma {:induction false} SortDescFilter<T>(p: T -> bool, s: seq<T>, key: T -> real)
    ensures Filter(p, SortDesc(s, key)) == SortDesc(Filter(p, s), key)
  {
    if s != [] {
      SortDescFilter(p, s[1..], key);
      SortDescCorrect(s[1..], key);
      InsertDescFilter(p, s[0], SortDesc(s[1..], key), key);
      if p(s[0]) {
        assert Filter(p, s)[1..] == Filter(p, s[1..]);
      } else {
        assert Filter(p, s) == Filter(p, s[1..]);
      }
    }
  }

  /** A list already in descending order is left as it is, ties included. */
  lemma {:induction false} SortDescIdempotent<T>(s: seq<T>, key: T -> real)
    requires SortedDesc(s, key)
    ensures SortDesc(s, key) == s
  {
    if s != [] {
      SortDescIdempotent(s[1..], key);
      assert s == [s[0]] + s[1..];
    }
  }

  /** Stands for std::sort with a "greater key" comparator: the order of ties is not promised. */
  method SortInPlace<T>(a: array<T>, key: T -> real)
    modifies a
    ensures SortedDesc(a[..], key)
    ensures multiset(a[..]) == multiset(old(a[..]))
  {
    for i := 0 to a.Length
      invariant SortedDesc(a[..i], key)
      invariant multiset(a[..]) == multiset(old(a[..]))
    {
      var j := i;
      while j > 0 && key(a[j - 1]) < key(a[j])
        invariant 0 <= j <= i
        invariant forall m, n :: 0 <= m < n <= i && n != j ==> key(a[m]) >= key(a[n])
        invariant multiset(a[..]) == multiset(old(a[..]))
      {
        Swap(a, j - 1, j);
        j := j - 1;
      }
    }
    assert a[..] == a[..a.Length];
  }

  method Swap<T>(a: array<T>, i: nat, j: nat)
    requires i < j < a.Length
    modifies a
    ensures a[..] == old(a[..])[i := old(a[j])][j := old(a[i])]
    ensures multiset(a[..]) == multiset(old(a[..]))
  {
    a[i], a[j] := a[j], a[i];
  }
}
