/** Pooling of token embeddings into one row per text. */
module Pooling {
  import opened Arithmetic
  import opened Batching
  import opened Normalize
  import opened Sequences
  import opened TokenTensor

  type Vec = seq<real>

  /** The configured pooling; anything but CLS is the mean. */
  datatype Pooling = Cls | Mean

  /** What a session returns: [batch x len x dim] token embeddings, or [batch x dim] rows that are pooled already. */
  datatype Tensor = Tensor(data: seq<real>, perToken: bool)

  const FEW: real := 0.000000001

  function InverseCount(n: nat): real {
    if n as real > FEW then 1.0 / n as real else 1.0
  }

  function ColumnSum(rows: seq<Vec>, d: nat): real
    requires forall i :: 0 <= i < |rows| ==> d < |rows[i]|
  {
    if rows == [] then 0.0 else ColumnSum(rows[..|rows| - 1], d) + rows[|rows| - 1][d]
  }

  /** The mean of the rows, and zeros when there are none. */
  ghost function MeanOf(rows: seq<Vec>, dim: nat): (r: Vec)
    requires Wide(rows, dim)
    ensures |r| == dim
  {
    seq(dim, d requires 0 <= d < dim => Prod(ColumnSum(rows, d), InverseCount(|rows|)))
  }

  /** The tensor has the cells that pooling reads. */
  ghost predicate Fits(p: Pooling, t: Tensor, mask: seq<int>, n: nat, len: nat, dim: nat) {
    if t.perToken then Shaped(t.data, mask, dim) && n * len <= |mask| && (p.Cls? ==> len > 0)
    else n * dim <= |t.data|
  }

  lemma {:induction false} RowFits(n: nat, len: nat, i: nat)
    requires i < n
    ensures i * len + len <= n * len
  {
    Product(i + 1, n, len);
    assert (i + 1) * len == i * len + len;
  }

  /** Then so are the cells of text i. */
  lemma {:induction false} TextFits(p: Pooling, t: Tensor, mask: seq<int>, n: nat, len: nat, dim: nat, i: nat)
    requires Fits(p, t, mask, n, len, dim) && i < n
    ensures t.perToken ==> i * len + len <= |mask|
    ensures t.perToken && p.Cls? ==> i * len * dim + dim <= |t.data|
    ensures !t.perToken ==> i * dim + dim <= |t.data|
  {
    RowFits(n, len, i);
    RowFits(n, dim, i);
  }

  /** The pooled row of text i. */
  ghost function PooledRow(p: Pooling, t: Tensor, mask: seq<int>, n: nat, len: nat, dim: nat, i: nat): (r: Vec)
    requires Fits(p, t, mask, n, len, dim) && i < n
    ensures |r| == dim
  {
    TextFits(p, t, mask, n, len, dim, i);
    if !t.perToken then TokenRow(t.data, i, dim)
    else if p.Cls? then TokenRow(t.data, i * len, dim)
    else MeanOf(VisibleRows(t.data, mask, i * len, len, dim), dim)
  }

  /** The mean of one row is that row: pooling what is pooled already changes nothing. */
  lemma {:induction false} MeanOfOne(row: Vec)
    ensures MeanOf([row], |row|) == row
  {
    forall d | 0 <= d < |row| ensures Prod(ColumnSum([row], d), InverseCount(1)) == row[d] {
      assert [row][..0] == [];
      assert ColumnSum([row], d) == row[d];
    }
  }

  // ----- the mean as an average of cells -----

  /** Component d of a row. */
  function Component(d: nat): Vec -> real {
    (row: Vec) => if d < |row| then row[d] else 0.0
  }

  lemma {:induction false} ColumnIsSum(rows: seq<Vec>, d: nat)
    requires forall i :: 0 <= i < |rows| ==> d < |rows[i]|
    ensures ColumnSum(rows, d) == SumBy(rows, Component(d))
  {
    if rows != [] {
      ColumnIsSum(rows[..|rows| - 1], d);
    }
  }

  /** The mean of some rows times their number is their sum, component by component; of none it is zero. */
  lemma {:induction false} MeanIsAverage(rows: seq<Vec>, dim: nat, d: nat, mean: real)
    requires Wide(rows, dim) && d < dim && mean == MeanOf(rows, dim)[d]
    ensures mean * |rows| as real == SumBy(rows, Component(d))
    ensures rows == [] ==> mean == 0.0
  {
    ColumnIsSum(rows, d);
    if rows != [] {
      assert |rows| as real > FEW;
      Undone(mean, ColumnSum(rows, d), |rows| as real);
    }
  }

  /** The order of the rows does not matter. */
  lemma {:induction false} MeanOfPermuted(rows: seq<Vec>, other: seq<Vec>, dim: nat)
    requires Wide(rows, dim) && Wide(other, dim) && multiset(rows) == multiset(other)
    ensures MeanOf(rows, dim) == MeanOf(other, dim)
  {
    PermutationLength(rows, other);
    forall d | 0 <= d < dim ensures MeanOf(rows, dim)[d] == MeanOf(other, dim)[d] {
      ColumnIsSum(rows, d);
      ColumnIsSum(other, d);
      SumByPermutation(rows, other, Component(d));
    }
  }

  /** Whether the mask shows the s-th token from `first` on. */
  function IsShown(mask: seq<int>, first: nat): nat -> bool {
    (s: nat) => first + s < |mask| && mask[first + s] != 0
  }

  /** Component d of a token's row. */
  function CellAt(data: seq<real>, token: nat, dim: nat, d: nat): real {
    if token * dim + d < |data| then data[token * dim + d] else 0.0
  }

  /** Component d of the s-th token from `first` on, 0 when the mask hides it. */
  function ShownCell(data: seq<real>, mask: seq<int>, first: nat, dim: nat, d: nat): nat -> real {
    (s: nat) => if IsShown(mask, first)(s) then CellAt(data, first + s, dim, d) else 0.0
  }

  lemma CellOfRow(data: seq<real>, token: nat, dim: nat, d: nat)
    requires token * dim + dim <= |data| && d < dim
    ensures token * dim + d < |data| && data[token * dim + d] == TokenRow(data, token, dim)[d]
    ensures CellAt(data, token, dim, d) == TokenRow(data, token, dim)[d] == Component(d)(TokenRow(data, token, dim))
  {
  }

  lemma {:induction false} ShownCellsAddUp(data: seq<real>, mask: seq<int>, first: nat, len: nat, dim: nat, d: nat)
    requires Shaped(data, mask, dim) && first + len <= |mask| && d < dim
    ensures |VisibleRows(data, mask, first, len, dim)| == CountBy(IsShown(mask, first), UpTo(len))
    ensures SumBy(VisibleRows(data, mask, first, len, dim), Component(d))
         == SumBy(UpTo(len), ShownCell(data, mask, first, dim, d))
  {
    hide TokenRow, Component, CellAt;
    if len > 0 {
      ShownCellsAddUp(data, mask, first, len - 1, dim, d);
      SumUpTo(len, ShownCell(data, mask, first, dim, d), ShownCell(data, mask, first, dim, d));
      assert UpTo(len)[..len - 1] == UpTo(len - 1);
      CellOfRow(data, first + len - 1, dim, d);
      var front, row := VisibleRows(data, mask, first, len - 1, dim), TokenRow(data, first + len - 1, dim);
      assert (front + [row])[..|front|] == front;
    }
  }

  /** What pooling copies, cell by cell: the tensor's own cell when it is pooled already, or the first token's. */
  lemma {:induction false} CopiedCell(p: Pooling, t: Tensor, mask: seq<int>, n: nat, len: nat, dim: nat, i: nat, d: nat)
    requires Fits(p, t, mask, n, len, dim) && i < n && d < dim && (t.perToken ==> p.Cls?)
    ensures var place := if t.perToken then i * len else i;
      place * dim + d < |t.data| && PooledRow(p, t, mask, n, len, dim, i)[d] == t.data[place * dim + d]
  {
    TextFits(p, t, mask, n, len, dim, i);
    hide TokenRow, CellAt;
    CellOfRow(t.data, if t.perToken then i * len else i, dim, d);
  }

  /** What mean pooling writes, cell by cell: the average over the tokens that the mask shows, 0 when it shows none. */
  lemma {:induction false} AveragedCell(t: Tensor, mask: seq<int>, n: nat, len: nat, dim: nat, i: nat, d: nat,
                                        cell: real, shown: nat)
    requires Fits(Mean, t, mask, n, len, dim) && i < n && d < dim && t.perToken
    requires cell == PooledRow(Mean, t, mask, n, len, dim, i)[d] && shown == CountBy(IsShown(mask, i * len), UpTo(len))
    ensures cell * shown as real == SumBy(UpTo(len), ShownCell(t.data, mask, i * len, dim, d))
    ensures shown == 0 ==> cell == 0.0
  {
    hide ShownCell, IsShown, MeanOf, VisibleRows, SumBy, CountBy, Shaped, Fits, PooledRow;
    MeanRow(t, mask, n, len, dim, i);
    AverageOfShown(t.data, mask, i * len, len, dim, d, cell, shown);
  }

  lemma {:induction false} MeanRow(t: Tensor, mask: seq<int>, n: nat, len: nat, dim: nat, i: nat)
    requires Fits(Mean, t, mask, n, len, dim) && i < n && t.perToken
    ensures Shaped(t.data, mask, dim) && i * len + len <= |mask|
    ensures PooledRow(Mean, t, mask, n, len, dim, i) == MeanOf(VisibleRows(t.data, mask, i * len, len, dim), dim)
  {
    TextFits(Mean, t, mask, n, len, dim, i);
    hide MeanOf, VisibleRows;
  }

  lemma {:induction false} AverageOfShown(data: seq<real>, mask: seq<int>, first: nat, len: nat, dim: nat, d: nat,
                                          mean: real, shown: nat)
    requires Shaped(data, mask, dim) && first + len <= |mask| && d < dim
    requires mean == MeanOf(VisibleRows(data, mask, first, len, dim), dim)[d]
    requires shown == CountBy(IsShown(mask, first), UpTo(len))
    ensures mean * shown as real == SumBy(UpTo(len), ShownCell(data, mask, first, dim, d))
    ensures shown == 0 ==> mean == 0.0
  {
    hide ShownCell, IsShown, MeanOf, VisibleRows, SumBy, CountBy, Shaped, Component;
    ShownCellsAddUp(data, mask, first, len, dim, d);
    MeanIsAverage(VisibleRows(data, mask, first, len, dim), dim, d, mean);
  }

  // ----- the loops -----

  /** x and y agree outside the `dim` cells from `base` on. */
  ghost predicate SameElsewhere(x: Vec, y: Vec, base: nat, dim: nat) {
    && |x| == |y|
    && forall k :: 0 <= k < |x| && !(base <= k < base + dim) ==> x[k] == y[k]
  }

  lemma {:induction false} OtherRow(x: Vec, y: Vec, i: nat, dim: nat, k: nat)
    requires SameElsewhere(x, y, Mul(i, dim), dim) && k != i && Mul(k, dim) + dim <= |x|
    ensures RowAt(x, k, dim) == RowAt(y, k, dim)
  {
    if k < i {
      NextRow(k, i, dim);
    } else {
      NextRow(i, k, dim);
    }
    hide Mul;
    assert forall j :: Mul(k, dim) <= j < Mul(k, dim) + dim ==> x[j] == y[j];
  }

  method CopyCells(out: array<real>, base: nat, row: Vec)
    requires base + |row| <= out.Length
    modifies out
    ensures out[base..base + |row|] == row
    ensures SameElsewhere(out[..], old(out[..]), base, |row|)
  {
    for d := 0 to |row|
      invariant forall k :: 0 <= k < d ==> out[base + k] == row[k]
      invariant forall k :: 0 <= k < base || base + d <= k < out.Length ==> out[k] == old(out[k])
    {
      out[base + d] := row[d];
    }
  }

  method AddCells(out: array<real>, base: nat, row: Vec)
    requires base + |row| <= out.Length
    modifies out
    ensures forall d :: 0 <= d < |row| ==> out[base + d] == old(out[base + d]) + row[d]
    ensures SameElsewhere(out[..], old(out[..]), base, |row|)
  {
    for d := 0 to |row|
      invariant forall k :: 0 <= k < d ==> out[base + k] == old(out[base + k]) + row[k]
      invariant forall k :: 0 <= k < base || base + d <= k < out.Length ==> out[k] == old(out[k])
    {
      out[base + d] := out[base + d] + row[d];
    }
  }

  method ClearCells(out: array<real>, base: nat, dim: nat)
    requires base + dim <= out.Length
    modifies out
    ensures forall k :: base <= k < base + dim ==> out[k] == 0.0
    ensures SameElsewhere(out[..], old(out[..]), base, dim)
  {
    for d := 0 to dim
      invariant forall k :: base <= k < base + d ==> out[k] == 0.0
      invariant forall k :: 0 <= k < base || base + d <= k < out.Length ==> out[k] == old(out[k])
    {
      out[base + d] := 0.0;
    }
  }

  /** The attention-masked mean of one text's token rows. */
  method MeanCells(out: array<real>, base: nat, data: seq<real>, mask: seq<int>, first: nat, len: nat, dim: nat)
    requires Shaped(data, mask, dim) && first + len <= |mask| && base + dim <= out.Length
    modifies out
    ensures out[base..base + dim] == MeanOf(VisibleRows(data, mask, first, len, dim), dim)
    ensures SameElsewhere(out[..], old(out[..]), base, dim)
  {
    ClearCells(out, base, dim);
    var count := 0;
    for s := 0 to len
      invariant SameElsewhere(out[..], old(out[..]), base, dim)
      invariant count == |VisibleRows(data, mask, first, s, dim)|
      invariant forall d :: 0 <= d < dim ==> out[base + d] == ColumnSum(VisibleRows(data, mask, first, s, dim), d)
    {
      if mask[first + s] != 0 {
        AddCells(out, base, TokenRow(data, first + s, dim));
        count := count + 1;
      }
    }
    ScaleRow(out, base, dim, InverseCount(count));
  }

  /** Pools the whole batch into `out`, row after row. */
  method Pool(p: Pooling, t: Tensor, mask: seq<int>, n: nat, len: nat, dim: nat, out: array<real>)
    requires Fits(p, t, mask, n, len, dim) && out.Length == Mul(n, dim)
    modifies out
    ensures forall i :: 0 <= i < n ==> Mul(i, dim) + dim <= out.Length
    ensures forall i :: 0 <= i < n ==> RowAt(out[..], i, dim) == PooledRow(p, t, mask, n, len, dim, i)
  {
    RowsFit(n, dim);
    for i := 0 to n
      invariant forall k :: 0 <= k < i ==> RowAt(out[..], k, dim) == PooledRow(p, t, mask, n, len, dim, k)
    {
      ghost var before := out[..];
      PoolText(p, t, mask, n, len, dim, i, out);
      forall k | 0 <= k < i ensures RowAt(out[..], k, dim) == PooledRow(p, t, mask, n, len, dim, k) {
        OtherRow(out[..], before, i, dim, k);
      }
    }
  }

  lemma {:induction false} RowsFit(n: nat, dim: nat)
    ensures forall i :: 0 <= i < n ==> Mul(i, dim) + dim <= Mul(n, dim)
  {
    forall i | 0 <= i < n ensures Mul(i, dim) + dim <= Mul(n, dim) {
      NextRow(i, n, dim);
    }
  }

  /** One text: its row as it is, its first token's row, or the mean of its visible tokens' rows. */
  method PoolText(p: Pooling, t: Tensor, mask: seq<int>, n: nat, len: nat, dim: nat, i: nat, out: array<real>)
    requires Fits(p, t, mask, n, len, dim) && i < n && Mul(i, dim) + dim <= out.Length
    modifies out
    ensures RowAt(out[..], i, dim) == PooledRow(p, t, mask, n, len, dim, i)
    ensures SameElsewhere(out[..], old(out[..]), Mul(i, dim), dim)
  {
    TextFits(p, t, mask, n, len, dim, i);
    var base := Mul(i, dim);
    if !t.perToken {
      CopyCells(out, base, TokenRow(t.data, i, dim));
    } else if p.Cls? {
      CopyCells(out, base, TokenRow(t.data, i * len, dim));
    } else {
      MeanCells(out, base, t.data, mask, i * len, len, dim);
    }
    assert RowAt(out[..], i, dim) == out[base..base + dim];
  }
}
