/** Sequence operations shared by the models: mapping, filtering, Python slicing and real-valued sums. */
module Sequences {

  function Min(a: nat, b: nat): nat { if a < b then a else b }

  function Map<A, B>(f: A -> B, s: seq<A>): (r: seq<B>)
    ensures |r| == |s|
    ensures forall i :: 0 <= i < |s| ==> r[i] == f(s[i])
  {
    seq(|s|, i requires 0 <= i < |s| => f(s[i]))
  }

  function Copies<T>(n: nat, x: T): (s: seq<T>)
    ensures |s| == n && forall i :: 0 <= i < n ==> s[i] == x
  {
    seq(n, _ => x)
  }

  /** 0, 1, ..., n-1. */
  function UpTo(n: nat): (r: seq<nat>)
    ensures |r| == n && forall i :: 0 <= i < n ==> r[i] == i
  {
    seq(n, i => i)
  }

  lemma {:induction false} UpToOnce(n: nat, k: nat)
    ensures multiset(UpTo(n))[k] == if k < n then 1 else 0
  {
    if n > 0 {
      UpToOnce(n - 1, k);
      assert UpTo(n) == UpTo(n - 1) + [n - 1];
    }
  }

  /** Keeps the elements that satisfy `p`, in order. */
  function Filter<T>(p: T -> bool, s: seq<T>): seq<T> {
    if s == [] then []
    else (if p(s[0]) then [s[0]] else []) + Filter(p, s[1..])
  }

  lemma FilterAll<T>(p: T -> bool, s: seq<T>)
    requires forall x :: x in s ==> p(x)
    ensures Filter(p, s) == s
  {
    if s != [] {
      FilterAll(p, s[1..]);
    }
  }

  lemma FilterNone<T>(p: T -> bool, s: seq<T>)
    requires forall x :: x in s ==> !p(x)
    ensures Filter(p, s) == []
  {
  }

  lemma {:induction false} FilterMember<T>(p: T -> bool, s: seq<T>, x: T)
    ensures x in Filter(p, s) <==> x in s && p(x)
  {
    if s != [] {
      FilterMember(p, s[1..], x);
      assert s == [s[0]] + s[1..];
    }
  }

  /** The stop index of the Python slice `s[:k]` on a list of length `n`; a negative `k` counts from the end. */
  function PyStop(n: nat, k: int): (r: nat)
    ensures r <= n
  {
    if k >= 0 then (if k < n then k else n) else if n + k > 0 then n + k else 0
  }

  function PySlice<T>(s: seq<T>, k: int): seq<T> {
    s[..PyStop(|s|, k)]
  }

  /** A slice up to k is a prefix: the first k elements, or all but the last -k, as far as there are that many. */
  lemma PySliceIs<T>(s: seq<T>, k: int)
    ensures PySlice(s, k) <= s
    ensures 0 <= k <= |s| ==> |PySlice(s, k)| == k
    ensures k >= |s| ==> PySlice(s, k) == s
    ensures -|s| <= k < 0 ==> |PySlice(s, k)| == |s| + k
    ensures k < -|s| ==> PySlice(s, k) == []
  {
  }

  function SumBy<T>(s: seq<T>, f: T -> real): real {
    if s == [] then 0.0 else SumBy(s[..|s| - 1], f) + f(s[|s| - 1])
  }

  lemma SumByConcat<T>(a: seq<T>, b: seq<T>, f: T -> real)
    ensures SumBy(a + b, f) == SumBy(a, f) + SumBy(b, f)
  {
    if b == [] {
      assert a + b == a;
    } else {
      assert (a + b)[..|a + b| - 1] == a + b[..|b| - 1];
      SumByConcat(a, b[..|b| - 1], f);
    }
  }

  lemma SumByOne<T>(x: T, f: T -> real)
    ensures SumBy([x], f) == f(x)
  {
    assert [x][..0] == [];
  }

  lemma {:induction false} SumByAgrees<T>(s: seq<T>, f: T -> real, g: T -> real)
    requires forall x :: x in s ==> f(x) == g(x)
    ensures SumBy(s, f) == SumBy(s, g)
  {
    if s != [] {
      SumByAgrees(s[..|s| - 1], f, g);
    }
  }

  /** Sums over places: one place more adds its value. */
  lemma {:induction false} SumUpTo(n: nat, f: nat -> real, g: nat -> real)
    requires n > 0 && forall i :: 0 <= i < n - 1 ==> f(i) == g(i)
    ensures SumBy(UpTo(n), f) == SumBy(UpTo(n - 1), g) + f(n - 1)
  {
    assert UpTo(n)[..n - 1] == UpTo(n - 1);
    SumByAgrees(UpTo(n - 1), f, g);
  }

  lemma {:induction false} PermutationLength<T>(r: seq<T>, s: seq<T>)
    requires multiset(r) == multiset(s)
    ensures |r| == |s|
  {
    assert |multiset(r)| == |r| && |multiset(s)| == |s|;
  }

  lemma {:induction false} PermutationMembers<T>(r: seq<T>, s: seq<T>)
    requires multiset(r) == multiset(s)
    ensures forall x :: x in r <==> x in s
  {
    forall x ensures x in r <==> x in s {
      assert x in multiset(r) <==> x in r;
      assert x in multiset(s) <==> x in s;
    }
  }

  /** Where the last element of r lies in a permutation s of it, and that the others correspond. */
  lemma {:induction false} LastInPermutation<T>(r: seq<T>, s: seq<T>) returns (i: nat)
    requires multiset(r) == multiset(s) && r != []
    ensures i < |s| && s[i] == r[|r| - 1]
    ensures multiset(r[..|r| - 1]) == multiset(s[..i] + s[i + 1..])
  {
    var x, front := r[|r| - 1], r[..|r| - 1];
    assert r == front + [x];
    assert x in multiset(s);
    i :| 0 <= i < |s| && s[i] == x;
    assert s == s[..i] + [x] + s[i + 1..];
    assert multiset(s[..i] + s[i + 1..]) == multiset(s) - multiset{x};
    assert multiset(front) == multiset(r) - multiset{x};
  }

  lemma {:induction false} SumByRemove<T>(s: seq<T>, i: nat, f: T -> real)
    requires i < |s|
    ensures SumBy(s, f) == SumBy(s[..i] + s[i + 1..], f) + f(s[i])
  {
    var a, b := s[..i], s[i + 1..];
    assert s == a + ([s[i]] + b);
    SumByConcat(a, [s[i]] + b, f);
    SumByConcat([s[i]], b, f);
    SumByConcat(a, b, f);
    assert [s[i]][..0] == [];
  }

  /** A sum does not depend on the order of its terms. */
  lemma {:induction false} SumByPermutation<T>(r: seq<T>, s: seq<T>, f: T -> real)
    requires multiset(r) == multiset(s)
    ensures SumBy(r, f) == SumBy(s, f)
    decreases |r|
  {
    PermutationLength(r, s);
    if r != [] {
      var i := LastInPermutation(r, s);
      SumByPermutation(r[..|r| - 1], s[..i] + s[i + 1..], f);
      SumByRemove(s, i, f);
    }
  }

  lemma SumByNonNegative<T>(s: seq<T>, f: T -> real)
    requires forall x :: f(x) >= 0.0
    ensures SumBy(s, f) >= 0.0
  {
  }

  lemma {:induction false} SumByPrefixLeq<T>(s: seq<T>, f: T -> real, j: nat)
    requires j <= |s| && forall x :: f(x) >= 0.0
    ensures SumBy(s[..j], f) <= SumBy(s, f)
  {
    assert s == s[..j] + s[j..];
    SumByConcat(s[..j], s[j..], f);
    SumByNonNegative(s[j..], f);
  }

  function CountBy<T>(p: T -> bool, s: seq<T>): (r: nat)
    ensures r <= |s|
  {
    if s == [] then 0 else CountBy(p, s[..|s| - 1]) + (if p(s[|s| - 1]) then 1 else 0)
  }

  function Indicator<T>(p: T -> bool): T -> real {
    x => if p(x) then 1.0 else 0.0
  }

  lemma CountIsSum<T>(p: T -> bool, s: seq<T>)
    ensures CountBy(p, s) as real == SumBy(s, Indicator(p))
  {
  }

  lemma {:induction false} CountPermutation<T>(p: T -> bool, r: seq<T>, s: seq<T>)
    requires multiset(r) == multiset(s)
    ensures CountBy(p, r) == CountBy(p, s)
  {
    SumByPermutation(r, s, Indicator(p));
    CountIsSum(p, r);
    CountIsSum(p, s);
  }

  lemma {:induction false} CountConcat<T>(p: T -> bool, a: seq<T>, b: seq<T>)
    ensures CountBy(p, a + b) == CountBy(p, a) + CountBy(p, b)
  {
    SumByConcat(a, b, Indicator(p));
    CountIsSum(p, a);
    CountIsSum(p, b);
    CountIsSum(p, a + b);
  }

  lemma {:induction false} CountMap<A, B>(f: A -> B, p: A -> bool, q: B -> bool, s: seq<A>)
    requires forall x :: x in s ==> (p(x) <==> q(f(x)))
    ensures CountBy(p, s) == CountBy(q, Map(f, s))
  {
    if s != [] {
      assert Map(f, s)[..|s| - 1] == Map(f, s[..|s| - 1]);
      CountMap(f, p, q, s[..|s| - 1]);
    }
  }

  lemma MapConcat<A, B>(f: A -> B, a: seq<A>, b: seq<A>)
    ensures Map(f, a + b) == Map(f, a) + Map(f, b)
  {
  }

  lemma {:induction false} MapRemove<A, B>(f: A -> B, s: seq<A>, i: nat)
    requires i < |s|
    ensures multiset(Map(f, s)) == multiset(Map(f, s[..i] + s[i + 1..])) + multiset{f(s[i])}
  {
    var a, b := s[..i], s[i + 1..];
    assert Map(f, s) == Map(f, a) + [f(s[i])] + Map(f, b);
    MapConcat(f, a, b);
  }

  lemma {:induction false} MapPermutation<A, B>(f: A -> B, r: seq<A>, s: seq<A>)
    requires multiset(r) == multiset(s)
    ensures multiset(Map(f, r)) == multiset(Map(f, s))
    decreases |r|
  {
    PermutationLength(r, s);
    if r != [] {
      var n := |r| - 1;
      var i := LastInPermutation(r, s);
      MapPermutation(f, r[..n], s[..i] + s[i + 1..]);
      MapRemove(f, s, i);
      MapRemove(f, r, n);
      assert r[..n] + r[n + 1..] == r[..n];
    }
  }

  function Flatten<T>(ss: seq<seq<T>>): seq<T> {
    if ss == [] then [] else Flatten(ss[..|ss| - 1]) + ss[|ss| - 1]
  }

  lemma {:induction false} FlattenSnoc<T>(front: seq<seq<T>>, last: seq<T>)
    ensures Flatten(front + [last]) == Flatten(front) + last
  {
    assert (front + [last])[..|front|] == front;
  }

  lemma ConcatAssociative<T>(a: seq<T>, b: seq<T>, c: seq<T>)
    ensures a + (b + c) == (a + b) + c
    ensures a + [] == a
  {
  }

  lemma {:induction false} FlattenConcat<T>(a: seq<seq<T>>, b: seq<seq<T>>)
    ensures Flatten(a + b) == Flatten(a) + Flatten(b)
  {
    if b == [] {
      assert a + b == a;
    } else {
      var front, last := b[..|b| - 1], b[|b| - 1];
      FlattenConcat(a, front);
      assert a + b == (a + front) + [last];
      FlattenSnoc(a + front, last);
      ConcatAssociative(Flatten(a), Flatten(front), last);
    }
  }

  lemma SubsetCardinality<T>(a: set<T>, b: set<T>)
    requires a <= b
    ensures |a| <= |b|
  {
    if a != {} {
      var x :| x in a;
      SubsetCardinality(a - {x}, b - {x});
    }
  }
}
