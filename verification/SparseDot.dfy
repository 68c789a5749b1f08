/** The two sparse dot products of the benchmark against the dense one. */
module SparseDot {
  import opened Arithmetic
  import opened SparseTerms
  import VectorGeometry

  ghost predicate DistinctIndices(v: seq<Term>) {
    forall i, j :: 0 <= i < j < |v| ==> v[i].index != v[j].index
  }

  ghost predicate Within(v: seq<Term>, size: nat) {
    forall i :: 0 <= i < |v| ==> 0 <= v[i].index < size
  }

  /** `v.get(index, 0.0)`. */
  function Get(v: seq<Term>, index: int): real {
    if v == [] then 0.0
    else if v[|v| - 1].index == index then v[|v| - 1].value
    else Get(v[..|v| - 1], index)
  }

  /** Sum over the terms d_j with the index of q of q * d_j. */
  function MatchSum(q: Term, d: seq<Term>): real {
    if d == [] then 0.0
    else if q.index == d[|d| - 1].index then MatchSum(q, d[..|d| - 1]) + Prod(q.value, d[|d| - 1].value)
    else MatchSum(q, d[..|d| - 1])
  }

  /** The CSR form: all pairs with equal indices. */
  function NestedDot(q: seq<Term>, d: seq<Term>): real {
    if q == [] then 0.0 else NestedDot(q[..|q| - 1], d) + MatchSum(q[|q| - 1], d)
  }

  /** The dictionary form: look every term of d up in q. */
  function LookupDot(q: seq<Term>, d: seq<Term>): real {
    if d == [] then 0.0
    else LookupDot(q, d[..|d| - 1]) + Prod(Get(q, d[|d| - 1].index), d[|d| - 1].value)
  }

  /** The dense vector with v's values at v's indices and zeros elsewhere. */
  function Scatter(v: seq<Term>, size: nat): (r: seq<real>)
    ensures |r| == size && forall i :: 0 <= i < size ==> r[i] == Get(v, i)
  {
    seq(size, i => Get(v, i))
  }

  lemma {:induction false} GetAbsent(v: seq<Term>, index: int)
    requires forall i :: 0 <= i < |v| ==> v[i].index != index
    ensures Get(v, index) == 0.0
  {
    if v != [] {
      GetAbsent(v[..|v| - 1], index);
    }
  }

  /** With distinct indices at most one term matches: the sum is one product. */
  lemma {:induction false} MatchSumIsProduct(q: Term, d: seq<Term>)
    requires DistinctIndices(d)
    ensures MatchSum(q, d) == Prod(q.value, Get(d, q.index))
  {
    if d != [] {
      var n := |d| - 1;
      MatchSumIsProduct(q, d[..n]);
      if q.index == d[n].index {
        GetAbsent(d[..n], q.index);
        assert Prod(q.value, 0.0) == 0.0;
      }
    }
  }

  /** Scanning d for every term of q is looking every term of q up in d. */
  lemma {:induction false} NestedIsLookup(q: seq<Term>, d: seq<Term>)
    requires DistinctIndices(d)
    ensures NestedDot(q, d) == LookupDot(d, q)
  {
    if q != [] {
      var n := |q| - 1;
      NestedIsLookup(q[..n], d);
      MatchSumIsProduct(q[n], d);
      ProdCommutes(q[n].value, Get(d, q[n].index));
    }
  }

  /** Setting one zero entry of b adds one product. */
  lemma {:induction false} DotUpdate(a: seq<real>, b: seq<real>, i: nat, x: real)
    requires |a| == |b| && i < |b| && b[i] == 0.0
    ensures VectorGeometry.Dot(a, b[i := x]) == VectorGeometry.Dot(a, b) + Prod(a[i], x)
  {
    var n := |a| - 1;
    if i < n {
      assert b[i := x][..n] == b[..n][i := x];
      DotUpdate(a[..n], b[..n], i, x);
    } else {
      assert b[i := x][..n] == b[..n];
      assert Prod(a[n], 0.0) == 0.0;
    }
  }

  /** Looking up d's distinct terms in q is the dense dot product of the two scattered vectors. */
  lemma {:induction false} LookupIsDense(q: seq<Term>, d: seq<Term>, size: nat)
    requires DistinctIndices(d) && Within(d, size)
    ensures LookupDot(q, d) == VectorGeometry.Dot(Scatter(q, size), Scatter(d, size))
  {
    if d == [] {
      VectorGeometry.DotWithZero(Scatter(q, size), Scatter(d, size));
    } else {
      var n := |d| - 1;
      var front, i := d[..n], d[n].index;
      LookupIsDense(q, front, size);
      GetAbsent(front, i);
      assert Scatter(d, size) == Scatter(front, size)[i := d[n].value];
      DotUpdate(Scatter(q, size), Scatter(front, size), i, d[n].value);
    }
  }

  /** For vectors with distinct indices the index-match form, the dictionary form and the dense dot product of the
      scattered vectors agree, for any size that holds the indices. */
  lemma {:induction false} SparseDotsAgree(q: seq<Term>, d: seq<Term>, size: nat)
    requires DistinctIndices(q) && DistinctIndices(d) && Within(q, size) && Within(d, size)
    ensures NestedDot(q, d) == LookupDot(q, d) == VectorGeometry.Dot(Scatter(q, size), Scatter(d, size))
  {
    NestedIsLookup(q, d);
    LookupIsDense(q, d, size);
    LookupIsDense(d, q, size);
    VectorGeometry.DotSymmetric(Scatter(q, size), Scatter(d, size));
  }

  /** A size that holds all indices of a vector of non-negative ones. */
  function Bound(v: seq<Term>): nat {
    if v == [] then 0
    else
      var front := Bound(v[..|v| - 1]);
      if v[|v| - 1].index >= front then v[|v| - 1].index + 1 else front
  }

  lemma {:induction false} BoundHolds(v: seq<Term>, size: nat)
    requires (forall i :: 0 <= i < |v| ==> v[i].index >= 0) && Bound(v) <= size
    ensures Within(v, size)
  {
    if v != [] {
      BoundHolds(v[..|v| - 1], size);
    }
  }

  /** Both sparse forms are symmetric. */
  lemma {:induction false} SparseDotSymmetric(q: seq<Term>, d: seq<Term>)
    requires DistinctIndices(q) && DistinctIndices(d)
    requires forall i :: 0 <= i < |q| ==> q[i].index >= 0
    requires forall i :: 0 <= i < |d| ==> d[i].index >= 0
    ensures NestedDot(q, d) == NestedDot(d, q) && LookupDot(q, d) == LookupDot(d, q)
  {
    var size := if Bound(q) < Bound(d) then Bound(d) else Bound(q);
    BoundHolds(q, size);
    BoundHolds(d, size);
    SparseDotsAgree(q, d, size);
    SparseDotsAgree(d, q, size);
    VectorGeometry.DotSymmetric(Scatter(q, size), Scatter(d, size));
  }
}
