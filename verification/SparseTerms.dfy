/** Sparse vectors as lists of (index, value) terms. */
module SparseTerms {
  datatype Term = Term(index: int, value: real)

  /** Python's zip of the two arrays of a CSR-like vector: the shorter one decides the length. */
  function Zip(indices: seq<int>, values: seq<real>): (r: seq<Term>)
    ensures |r| == (if |indices| < |values| then |indices| else |values|)
    ensures forall i :: 0 <= i < |r| ==> r[i] == Term(indices[i], values[i])
  {
    var n := if |indices| < |values| then |indices| else |values|;
    seq(n, i requires 0 <= i < n => Term(indices[i], values[i]))
  }
}
