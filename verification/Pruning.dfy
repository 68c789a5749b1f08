/** Pruning of sparse vectors: threshold, stable sort by absolute value, top k. */
module Pruning {
  import opened Sequences
  import opened Sorting
  import opened SparseTerms

  function Magnitude(t: Term): real {
    if t.value >= 0.0 then t.value else -t.value
  }

  function Above(threshold: real): Term -> bool {
    (t: Term) => Magnitude(t) >= threshold
  }

  /** Threshold first, then the k largest; `k` cuts like a Python slice. */
  function Prune(threshold: real, k: int, terms: seq<Term>): seq<Term> {
    PySlice(SortDesc(Filter(Above(threshold), terms), Magnitude), k)
  }

  /** The k largest first, then the threshold. */
  function CutThenFilter(threshold: real, k: int, terms: seq<Term>): seq<Term> {
    Filter(Above(threshold), PySlice(SortDesc(terms, Magnitude), k))
  }

  method PruneVector(indices: seq<int>, values: seq<real>, threshold: real, topK: int) returns (filtered: seq<Term>)
    ensures filtered == Prune(threshold, topK, Zip(indices, values))
  {
    var terms := Zip(indices, values);
    filtered := [];
    for i := 0 to |terms|
      invariant filtered == Filter(Above(threshold), terms[..i])
    {
      assert terms[..i + 1] == terms[..i] + [terms[i]];
      FilterConcat(Above(threshold), terms[..i], [terms[i]]);
      if Magnitude(terms[i]) >= threshold {
        filtered := filtered + [terms[i]];
      }
    }
    assert terms[..|terms|] == terms;
    filtered := SortDesc(filtered, Magnitude);
    filtered := PySlice(filtered, topK);
  }

  lemma {:induction false} FilterConcat<T>(p: T -> bool, a: seq<T>, b: seq<T>)
    ensures Filter(p, a + b) == Filter(p, a) + Filter(p, b)
  {
    if a == [] {
      assert a + b == b;
    } else {
      assert (a + b)[1..] == a[1..] + b && (a + b)[0] == a[0];
      FilterConcat(p, a[1..], b);
      assert Filter(p, a + b) == (if p(a[0]) then [a[0]] else []) + (Filter(p, a[1..]) + Filter(p, b));
    }
  }

  /** The threshold cuts a magnitude-sorted list to a prefix. */
  lemma {:induction false} FilterIsPrefix(threshold: real, sorted: seq<Term>)
    requires SortedDesc(sorted, Magnitude)
    ensures |Filter(Above(threshold), sorted)| <= |sorted|
    ensures Filter(Above(threshold), sorted) == sorted[..|Filter(Above(threshold), sorted)|]
    ensures forall i :: 0 <= i < |sorted| ==>
      (Magnitude(sorted[i]) >= threshold <==> i < |Filter(Above(threshold), sorted)|)
  {
    if sorted != [] {
      var kept, rest := Filter(Above(threshold), sorted), Filter(Above(threshold), sorted[1..]);
      FilterIsPrefix(threshold, sorted[1..]);
      forall i | 0 <= i < |sorted| ensures Magnitude(sorted[i]) >= threshold <==> i < |kept| {
        assert i > 0 ==> sorted[i] == sorted[1..][i - 1];
        assert rest != [] ==> Magnitude(sorted[1..][0]) >= threshold;
      }
      if Magnitude(sorted[0]) >= threshold {
        assert sorted == [sorted[0]] + sorted[1..];
      }
    }
  }

  lemma SortedPrefix(sorted: seq<Term>, n: nat)
    requires SortedDesc(sorted, Magnitude) && n <= |sorted|
    ensures SortedDesc(sorted[..n], Magnitude)
  {
  }

  /** Filtering a prefix of a sorted list gives the shorter of the two prefixes. */
  lemma {:induction false} FilterOfPrefix(threshold: real, sorted: seq<Term>, n: nat)
    requires SortedDesc(sorted, Magnitude) && n <= |sorted|
    ensures var m := |Filter(Above(threshold), sorted)|;
      m <= |sorted| && Filter(Above(threshold), sorted[..n]) == sorted[..if n < m then n else m]
  {
    FilterIsPrefix(threshold, sorted);
    SortedPrefix(sorted, n);
    FilterIsPrefix(threshold, sorted[..n]);
    var m, kept := |Filter(Above(threshold), sorted)|, |Filter(Above(threshold), sorted[..n])|;
    assert forall i :: 0 <= i < n ==> sorted[..n][i] == sorted[i];
    if kept < n {
      assert !(Magnitude(sorted[..n][kept]) >= threshold);
    }
    if 0 < kept {
      assert Magnitude(sorted[..n][kept - 1]) >= threshold;
    }
    assert kept == if n < m then n else m;
  }

  /** What pruning keeps, as a prefix of the sorted input. */
  lemma {:induction false} PruneIsPrefix(threshold: real, k: nat, terms: seq<Term>)
    ensures var sorted := SortDesc(terms, Magnitude);
      var m := |Filter(Above(threshold), sorted)|;
      m <= |sorted| && Prune(threshold, k, terms) == sorted[..Min(k, m)]
  {
    SortDescCorrect(terms, Magnitude);
    SortDescFilter(Above(threshold), terms, Magnitude);
    FilterIsPrefix(threshold, SortDesc(terms, Magnitude));
  }

  /** For every k >= 0 and every threshold the two orders keep the same terms in the same sequence. */
  lemma {:induction false} PruneOrderIrrelevant(threshold: real, k: nat, terms: seq<Term>)
    ensures Prune(threshold, k, terms) == CutThenFilter(threshold, k, terms)
  {
    var sorted := SortDesc(terms, Magnitude);
    SortDescCorrect(terms, Magnitude);
    PruneIsPrefix(threshold, k, terms);
    FilterOfPrefix(threshold, sorted, PyStop(|sorted|, k));
  }

  function Zeros(n: nat): (s: seq<Term>)
    ensures |s| == n && forall i :: 0 <= i < n ==> s[i] == Term(0, 0.0)
  {
    seq(n, _ => Term(0, 0.0))
  }

  ghost predicate OrderNeverMatters(k: int) {
    forall threshold: real, terms: seq<Term> :: Prune(threshold, k, terms) == CutThenFilter(threshold, k, terms)
  }

  /** Non-negative k is exactly what it takes: a negative one counts from the end of different lists. */
  lemma {:induction false} OrderNeverMattersIff(k: int)
    ensures OrderNeverMatters(k) <==> k >= 0
  {
    if k >= 0 {
      forall threshold: real, terms: seq<Term>
        ensures Prune(threshold, k, terms) == CutThenFilter(threshold, k, terms)
      {
        PruneOrderIrrelevant(threshold, k, terms);
      }
    } else {
      NegativeCut(k);
    }
  }

  lemma {:induction false} NegativeCut(k: int)
    requires k < 0
    ensures Prune(1.0, k, [Term(0, 1.0)] + Zeros(-k)) != CutThenFilter(1.0, k, [Term(0, 1.0)] + Zeros(-k))
  {
    var top := Term(0, 1.0);
    var terms := [top] + Zeros(-k);
    FilterConcat(Above(1.0), [top], Zeros(-k));
    FilterNone(Above(1.0), Zeros(-k));
    assert Filter(Above(1.0), terms) == [top];
    SortDescIdempotent([top], Magnitude);
    assert Prune(1.0, k, terms) == [];
    SortDescIdempotent(terms, Magnitude);
    assert PySlice(terms, k) == [top];
  }

  function Size(x: real): real { if x < 0.0 then -x else x }

  /** Pruning, said outright: it keeps a front part of the terms in descending order of absolute value. All kept terms
      reach the threshold, they are at most k, and when they are fewer the next term falls short of the threshold. */
  lemma {:induction false} PruneIs(threshold: real, k: nat, terms: seq<Term>) returns (sorted: seq<Term>)
    ensures multiset(sorted) == multiset(terms)
    ensures forall i, j :: 0 <= i < j < |sorted| ==> Size(sorted[i].value) >= Size(sorted[j].value)
    ensures Prune(threshold, k, terms) <= sorted && |Prune(threshold, k, terms)| <= k
    ensures var n := |Prune(threshold, k, terms)|;
      && (forall i :: 0 <= i < n ==> Size(sorted[i].value) >= threshold)
      && (n < k && n < |sorted| ==> Size(sorted[n].value) < threshold)
  {
    sorted := SortDesc(terms, Magnitude);
    SortDescCorrect(terms, Magnitude);
    FilterIsPrefix(threshold, sorted);
    PruneIsPrefix(threshold, k, terms);
    hide SortDesc, Filter, Prune;
    assert forall i :: 0 <= i < |sorted| ==> Size(sorted[i].value) == Magnitude(sorted[i]);
  }

  /** What is kept outweighs what is dropped: the sorted survivors split into the kept ones and a rest, and no term
      of the rest exceeds a kept one in absolute value. */
  lemma {:induction false} KeptOutweighDropped(threshold: real, k: nat, terms: seq<Term>) returns (dropped: seq<Term>)
    ensures var survivors, kept := Filter(Above(threshold), terms), Prune(threshold, k, terms);
      && multiset(kept) + multiset(dropped) == multiset(survivors)
      && |kept| == (if k < |survivors| then k else |survivors|)
      && forall x, y :: x in kept && y in dropped ==> Magnitude(x) >= Magnitude(y)
  {
    var survivors := Filter(Above(threshold), terms);
    var sorted := SortDesc(survivors, Magnitude);
    SortDescCorrect(survivors, Magnitude);
    var n := PyStop(|sorted|, k);
    dropped := sorted[n..];
    assert sorted == sorted[..n] + sorted[n..];
  }

  lemma {:induction false} PruneSortedPrefix(threshold: real, k: nat, sorted: seq<Term>, n: nat)
    requires SortedDesc(sorted, Magnitude) && n <= |sorted|
    ensures var m := |Filter(Above(threshold), sorted)|;
      m <= |sorted| && Prune(threshold, k, sorted[..n]) == sorted[..Min(k, Min(n, m))]
  {
    var inner, m := sorted[..n], |Filter(Above(threshold), sorted)|;
    SortedPrefix(sorted, n);
    SortDescIdempotent(inner, Magnitude);
    PruneIsPrefix(threshold, k, inner);
    FilterOfPrefix(threshold, sorted, n);
    hide Filter, SortDesc, Prune, SortedDesc;
    assert |sorted[..Min(n, m)]| == Min(n, m);
    assert inner[..Min(k, Min(n, m))] == sorted[..Min(k, Min(n, m))];
  }

  /** Two prunings compose to one with the larger threshold and the smaller k. */
  lemma {:induction false} PruneComposes(t1: real, k1: nat, t2: real, k2: nat, terms: seq<Term>)
    ensures Prune(t1, k1, Prune(t2, k2, terms))
         == Prune(if t1 > t2 then t1 else t2, Min(k1, k2), terms)
  {
    hide Filter, SortDesc, Prune;
    var sorted := SortDesc(terms, Magnitude);
    SortDescCorrect(terms, Magnitude);
    PruneIsPrefix(t2, k2, terms);
    PruneIsPrefix(if t1 > t2 then t1 else t2, Min(k1, k2), terms);
    PruneSortedPrefix(t1, k1, sorted, Min(k2, |Filter(Above(t2), sorted)|));
    LargerThreshold(t1, t2, sorted);
  }

  lemma {:induction false} LargerThreshold(t1: real, t2: real, sorted: seq<Term>)
    requires SortedDesc(sorted, Magnitude)
    ensures var m1, m2 := |Filter(Above(t1), sorted)|, |Filter(Above(t2), sorted)|;
      |Filter(Above(if t1 > t2 then t1 else t2), sorted)| == if m1 < m2 then m1 else m2
  {
    FilterIsPrefix(t1, sorted);
    FilterIsPrefix(t2, sorted);
    var m1, m2 := |Filter(Above(t1), sorted)|, |Filter(Above(t2), sorted)|;
    if m1 < m2 {
      assert Magnitude(sorted[m1]) >= t2 && !(Magnitude(sorted[m1]) >= t1);
    } else if m2 < m1 {
      assert Magnitude(sorted[m2]) >= t1 && !(Magnitude(sorted[m2]) >= t2);
    }
  }
}
