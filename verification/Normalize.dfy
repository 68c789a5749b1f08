/** In-place L2 normalisation of the rows of a flat [count x dim] buffer. */
module Normalize {
  import opened Arithmetic
  import opened VectorGeometry

  /** Norms up to this are treated as zero. */
  const TINY: real := 0.000000000001

  function InverseNorm(norm: real): real {
    if norm > TINY then 1.0 / norm else 0.0
  }

  function Scale(row: Vec, factor: real): (r: Vec)
    ensures |r| == |row| && forall j :: 0 <= j < |row| ==> r[j] == Prod(row[j], factor)
  {
    seq(|row|, j requires 0 <= j < |row| => Prod(row[j], factor))
  }

  function NormalizedRow(row: Vec, root: real -> real): (r: Vec)
    ensures |r| == |row|
  {
    Scale(row, InverseNorm(Norm(row, root)))
  }

  /** The buffer with the row at `base` normalised and every other cell as it was. */
  function NormalizeAt(buffer: Vec, base: nat, dim: nat, root: real -> real): (r: Vec)
    requires base + dim <= |buffer|
    ensures |r| == |buffer|
  {
    buffer[..base] + NormalizedRow(buffer[base..base + dim], root) + buffer[base + dim..]
  }

  lemma NormalizeAtParts(buffer: Vec, base: nat, dim: nat, root: real -> real)
    requires base + dim <= |buffer|
    ensures var r := NormalizeAt(buffer, base, dim, root);
      && r[..base] == buffer[..base]
      && r[base..base + dim] == NormalizedRow(buffer[base..base + dim], root)
      && r[base + dim..] == buffer[base + dim..]
  {
  }

  /** The buffer with its first `count` rows normalised and every other cell as it was. */
  function Normalized(buffer: Vec, count: nat, dim: nat, root: real -> real): (r: Vec)
    requires Mul(count, dim) <= |buffer|
    ensures |r| == |buffer|
  {
    if count == 0 then buffer
    else
      MulSucc(dim, count - 1);
      NormalizeAt(Normalized(buffer, count - 1, dim, root), Mul(count - 1, dim), dim, root)
  }

  function RowAt(buffer: Vec, i: nat, dim: nat): Vec
    requires Mul(i, dim) + dim <= |buffer|
  {
    buffer[Mul(i, dim)..Mul(i, dim) + dim]
  }

  /** Rows are normalised independently: row i of the result is the normalised row i of the input, and the cells
      past the block are untouched. */
  lemma {:induction false} NormalizedRows(buffer: Vec, count: nat, dim: nat, root: real -> real)
    requires Mul(count, dim) <= |buffer|
    ensures forall i :: 0 <= i < count ==> Mul(i, dim) + dim <= Mul(count, dim)
    ensures forall i :: 0 <= i < count ==>
      RowAt(Normalized(buffer, count, dim, root), i, dim) == NormalizedRow(RowAt(buffer, i, dim), root)
    ensures Normalized(buffer, count, dim, root)[Mul(count, dim)..] == buffer[Mul(count, dim)..]
  {
    hide Mul, NormalizedRow, NormalizeAt;
    if count > 0 {
      MulSucc(dim, count - 1);
      NormalizedRows(buffer, count - 1, dim, root);
      var base := Mul(count - 1, dim);
      var front := Normalized(buffer, count - 1, dim, root);
      NormalizeAtParts(front, base, dim, root);
      forall i | 0 <= i < count
        ensures Mul(i, dim) + dim <= Mul(count, dim)
        ensures RowAt(NormalizeAt(front, base, dim, root), i, dim) == NormalizedRow(RowAt(buffer, i, dim), root)
      {
        if i < count - 1 {
          SameRow(NormalizeAt(front, base, dim, root), front, i, dim, base);
        } else {
          SameTail(front, buffer, base, dim);
        }
      }
      SameTail(front, buffer, base, dim);
    } else {
      MulZero(dim);
    }
  }

  lemma {:induction false} SameRow(x: Vec, y: Vec, i: nat, dim: nat, base: nat)
    requires |x| == |y| && Mul(i, dim) + dim <= base <= |x| && x[..base] == y[..base]
    ensures RowAt(x, i, dim) == RowAt(y, i, dim)
  {
    hide Mul;
    assert RowAt(x, i, dim) == x[..base][Mul(i, dim)..Mul(i, dim) + dim];
    assert RowAt(y, i, dim) == y[..base][Mul(i, dim)..Mul(i, dim) + dim];
  }

  lemma {:induction false} SameTail(x: Vec, y: Vec, base: nat, dim: nat)
    requires |x| == |y| && base + dim <= |x| && x[base..] == y[base..]
    ensures x[base..base + dim] == y[base..base + dim] && x[base + dim..] == y[base + dim..]
  {
    assert x[base..base + dim] == x[base..][..dim] && y[base..base + dim] == y[base..][..dim];
    assert x[base + dim..] == x[base..][dim..] && y[base + dim..] == y[base..][dim..];
  }

  lemma {:induction false} ScaleNormSq(row: Vec, factor: real)
    ensures NormSq(Scale(row, factor)) == Prod(Prod(factor, factor), NormSq(row))
  {
    if row == [] {
      assert Prod(Prod(factor, factor), 0.0) == 0.0;
    } else {
      var n := |row| - 1;
      ScaleNormSq(row[..n], factor);
      assert Scale(row, factor)[..n] == Scale(row[..n], factor);
      hide Prod;
      ProdSwap(row[n], factor, row[n], factor);
      ProdCommutes(Prod(row[n], row[n]), Prod(factor, factor));
      ProdAdd(Prod(factor, factor), NormSq(row[..n]), Prod(row[n], row[n]));
    }
  }

  lemma {:induction false} InverseSquare(norm: real)
    requires norm > 0.0
    ensures Prod(Prod(1.0 / norm, 1.0 / norm), Prod(norm, norm)) == 1.0
  {
    assert Prod(1.0 / norm, norm) == 1.0;
    ProdSwap(1.0 / norm, 1.0 / norm, norm, norm);
  }

  /** A normalised row has norm 1 exactly when its norm was above the threshold; otherwise it is all zero. */
  lemma {:induction false} UnitOrZero(row: Vec, root: real -> real)
    requires IsSqrt(root)
    ensures NormSq(NormalizedRow(row, root)) == 1.0 <==> Norm(row, root) > TINY
    ensures Norm(row, root) <= TINY ==> forall j :: 0 <= j < |row| ==> NormalizedRow(row, root)[j] == 0.0
  {
    var norm := Norm(row, root);
    NormIsRoot(row, root);
    ScaleNormSq(row, InverseNorm(norm));
    if norm > TINY {
      InverseSquare(norm);
    } else {
      assert Prod(Prod(0.0, 0.0), NormSq(row)) == 0.0;
    }
  }

  /** A normalised row is the row divided by its length, unless that is at most 1e-12: then it is zero. */
  lemma {:induction false} NormalizedRowIs(row: Vec, root: real -> real, j: nat, value: real, length: real)
    requires IsSqrt(root) && j < |row| && value == NormalizedRow(row, root)[j] && length == root(Dot(row, row))
    ensures if length > 0.000000000001 then value * length == row[j] else value == 0.0
  {
    if length > TINY {
      assert value == Prod(row[j], 1.0 / length);
      Undone(value, row[j], length);
    }
  }

  lemma Undone(v: real, x: real, y: real)
    requires y > 0.0 && v == Prod(x, 1.0 / y)
    ensures v * y == x
  {
    assert v == x / y;
  }

  /** Normalising twice is normalising once. */
  lemma {:induction false} NormalizeRowIdempotent(row: Vec, root: real -> real)
    requires IsSqrt(root)
    ensures NormalizedRow(NormalizedRow(row, root), root) == NormalizedRow(row, root)
  {
    var once := NormalizedRow(row, root);
    UnitOrZero(row, root);
    if Norm(row, root) > TINY {
      RootOfOne(root);
      assert Norm(once, root) == 1.0;
      forall j | 0 <= j < |row| ensures NormalizedRow(once, root)[j] == once[j] {
        assert Prod(once[j], 1.0) == once[j];
      }
    } else {
      forall j | 0 <= j < |row| ensures NormalizedRow(once, root)[j] == once[j] {
        assert Prod(0.0, InverseNorm(Norm(once, root))) == 0.0;
      }
    }
  }

  method ScaleRow(vectors: array<real>, base: nat, dim: nat, factor: real)
    requires base + dim <= vectors.Length
    modifies vectors
    ensures forall k :: base <= k < base + dim ==> vectors[k] == Prod(old(vectors[k]), factor)
    ensures forall k :: 0 <= k < base || base + dim <= k < vectors.Length ==> vectors[k] == old(vectors[k])
  {
    hide Prod;
    for j := 0 to dim
      invariant forall k :: base <= k < base + j ==> vectors[k] == Prod(old(vectors[k]), factor)
      invariant forall k :: 0 <= k < base || base + j <= k < vectors.Length ==> vectors[k] == old(vectors[k])
    {
      vectors[base + j] := Prod(vectors[base + j], factor);
    }
  }

  method RowNormSq(vectors: array<real>, base: nat, dim: nat) returns (normSq: real)
    requires base + dim <= vectors.Length
    ensures normSq == NormSq(vectors[base..base + dim])
  {
    hide Prod;
    normSq := 0.0;
    for j := 0 to dim
      invariant normSq == NormSq(vectors[base..base + j])
    {
      assert vectors[base..base + j + 1][..j] == vectors[base..base + j];
      normSq := normSq + Prod(vectors[base + j], vectors[base + j]);
    }
  }

  /** Normalises one row in place. */
  method NormalizeRow(vectors: array<real>, base: nat, dim: nat, root: real -> real)
    requires base + dim <= vectors.Length
    modifies vectors
    ensures vectors[..] == NormalizeAt(old(vectors[..]), base, dim, root)
  {
    hide Prod, NormSq;
    var normSq := RowNormSq(vectors, base, dim);
    var norm := root(normSq);
    assert vectors[base..base + dim] == vectors[..][base..base + dim];
    ScaleRow(vectors, base, dim, InverseNorm(norm));
  }

  /** The whole buffer. A negative count or dimension touches nothing. */
  method L2Normalize(vectors: array<real>, count: int, dim: int, root: real -> real)
    requires count > 0 && dim > 0 ==> Mul(count, dim) <= vectors.Length
    modifies vectors
    ensures vectors[..] ==
      if count > 0 && dim > 0 then Normalized(old(vectors[..]), count, dim, root) else old(vectors[..])
  {
    if count > 0 && dim > 0 {
      hide Mul, NormalizeAt;
      MulZero(dim);
      for i := 0 to count
        invariant Mul(i, dim) <= vectors.Length
        invariant vectors[..] == Normalized(old(vectors[..]), i, dim, root)
      {
        NextRow(i, count, dim);
        NormalizeRow(vectors, Mul(i, dim), dim, root);
      }
    }
  }

  lemma {:induction false} NextRow(i: nat, count: nat, dim: nat)
    requires i < count
    ensures Mul(i, dim) + dim == Mul(i + 1, dim) <= Mul(count, dim)
  {
    MulSucc(dim, i);
    MulMonotone(dim, i + 1, count);
  }

  /** A second call changes nothing. */
  lemma {:induction false} NormalizeIdempotent(buffer: Vec, count: nat, dim: nat, root: real -> real)
    requires IsSqrt(root) && Mul(count, dim) <= |buffer|
    ensures Normalized(Normalized(buffer, count, dim, root), count, dim, root) == Normalized(buffer, count, dim, root)
  {
    NormalizedOfFixed(Normalized(buffer, count, dim, root), count, dim, root, buffer);
  }

  lemma {:induction false} NormalizedOfFixed(once: Vec, k: nat, dim: nat, root: real -> real, buffer: Vec)
    requires IsSqrt(root) && Mul(k, dim) <= |buffer| == |once|
    requires Mul(k, dim) <= |once| && once[..Mul(k, dim)] == Normalized(buffer, k, dim, root)[..Mul(k, dim)]
    ensures Normalized(once, k, dim, root) == once
  {
    hide Mul, NormalizedRow, IsSqrt, NormalizeAt;
    MulZero(dim);
    if k > 0 {
      MulSucc(dim, k - 1);
      var base := Mul(k - 1, dim);
      var front := Normalized(buffer, k - 1, dim, root);
      var all := NormalizeAt(front, base, dim, root);
      NormalizeAtParts(front, base, dim, root);
      SamePrefix(once, all, base, dim);
      NormalizedOfFixed(once, k - 1, dim, root, buffer);
      NormalizeRowIdempotent(front[base..base + dim], root);
      NormalizeAtFixed(once, base, dim, root);
    }
  }

  lemma {:induction false} SamePrefix(x: Vec, y: Vec, base: nat, dim: nat)
    requires |x| == |y| && base + dim <= |x| && x[..base + dim] == y[..base + dim]
    ensures x[..base] == y[..base] && x[base..base + dim] == y[base..base + dim]
  {
    assert x[..base] == x[..base + dim][..base] && y[..base] == y[..base + dim][..base];
    assert x[base..base + dim] == x[..base + dim][base..] && y[base..base + dim] == y[..base + dim][base..];
  }

  lemma NormalizeAtFixed(buffer: Vec, base: nat, dim: nat, root: real -> real)
    requires base + dim <= |buffer|
    requires NormalizedRow(buffer[base..base + dim], root) == buffer[base..base + dim]
    ensures NormalizeAt(buffer, base, dim, root) == buffer
  {
  }
}
