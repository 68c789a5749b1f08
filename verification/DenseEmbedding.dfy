/** What the embedding loop guarantees about the rows it returns. */
module DenseEmbedding {
  import opened Arithmetic
  import opened BatchRuns
  import opened Normalize
  import opened OnnxBatching
  import opened Pooling
  import opened Sequences
  import opened Status
  import opened Tokenizing
  import opened TokenTensor
  import opened VectorGeometry

  /** The rows of text i that the mask shows, or its one row when the tensor is pooled already. */
  ghost function ShownRows(t: Tensor, mask: seq<int>, n: nat, len: nat, dim: nat, i: nat): (r: seq<Vec>)
    requires Fits(Mean, t, mask, n, len, dim) && i < n
    ensures Wide(r, dim)
  {
    TextFits(Mean, t, mask, n, len, dim, i);
    if t.perToken then VisibleRows(t.data, mask, i * len, len, dim) else [TokenRow(t.data, i, dim)]
  }

  /** Running the session on rows of tokens as the batch loop lays them out. */
  function RunPadded(m: Model, rows: seq<seq<int>>): Option<Tensor> {
    var e := Padded(rows, m.tok.padId);
    m.run(Flatten(e.ids), Flatten(e.mask), Zeros(|rows| * e.seqLen), |rows|, e.seqLen)
  }

  ghost predicate WideHidden(hidden: seq<int> -> seq<Vec>, dim: nat) {
    forall ids :: Wide(hidden(ids), dim)
  }

  /** Text i of the tensor has these rows: one for every token, one token after the other from place i * len on, or a
      single one at place i when the tensor is pooled already. */
  ghost predicate HasTextRows(t: Tensor, i: nat, len: nat, dim: nat, tokens: nat, rows: seq<Vec>) {
    if t.perToken then
      |rows| == tokens && forall s :: 0 <= s < tokens ==> IsRowAt(t.data, i * len + s, dim, rows[s])
    else |rows| == 1 && IsRowAt(t.data, i, dim, rows[0])
  }

  /** The session returned a tensor of the right shape. */
  ghost predicate Returns(m: Model, out: Option<Tensor>, mask: seq<int>, n: nat, len: nat) {
    out.Some? && Fits(Mean, out.value, mask, n, len, m.dim)
  }

  /** The rows of a text are a function of its tokens, not of its padding or the rest of the batch. */
  ghost predicate PaddingIndependent(m: Model, hidden: seq<int> -> seq<Vec>) {
    && WideHidden(hidden, m.dim)
    && forall rows: seq<seq<int>>, ids: seq<int>, mask: seq<int>, types: seq<int>, len: nat, i: nat ::
         SentAs(rows, m.tok.padId, ids, mask, types, len) && i < |rows|
         && Returns(m, m.run(ids, mask, types, |rows|, len), mask, |rows|, len) ==>
           HasTextRows(m.run(ids, mask, types, |rows|, len).value, i, len, m.dim, |rows[i]|, hidden(rows[i]))
  }

  lemma {:induction false} ShownOfText(t: Tensor, ids: seq<int>, mask: seq<int>, n: nat, len: nat, dim: nat, i: nat,
                                       row: seq<int>, padId: int, rows: seq<Vec>)
    requires Fits(Mean, t, mask, n, len, dim) && i < n && HoldsRow(ids, mask, i * len, len, row, padId)
    requires HasTextRows(t, i, len, dim, |row|, rows)
    ensures ShownRows(t, mask, n, len, dim, i) == rows
  {
    TextFits(Mean, t, mask, n, len, dim, i);
    if t.perToken {
      MaskOfRow(ids, mask, i * len, len, row, padId);
      assert |rows| <= len;
      hide HoldsRow, TokenRow, IsRowAt, VisibleRows;
      forall s | 0 <= s < |rows| ensures TokenRow(t.data, i * len + s, dim) == rows[s] {
        RowOfPlace(t.data, i * len + s, dim, rows[s]);
      }
      ShownPrefix(t.data, mask, i * len, len, dim, rows);
    }
  }

  lemma RowsOfSent(m: Model, hidden: seq<int> -> seq<Vec>, rows: seq<seq<int>>, ids: seq<int>, mask: seq<int>,
                   types: seq<int>, len: nat, i: nat)
    requires PaddingIndependent(m, hidden) && SentAs(rows, m.tok.padId, ids, mask, types, len) && i < |rows|
    requires Returns(m, m.run(ids, mask, types, |rows|, len), mask, |rows|, len)
    ensures HasTextRows(m.run(ids, mask, types, |rows|, len).value, i, len, m.dim, |rows[i]|, hidden(rows[i]))
  {
    hide HasTextRows, Fits, SentAs;
  }

  /** What the mask shows of text i of a batch is computed from that text's tokens. */
  lemma {:induction false} PaddedRowsShown(m: Model, hidden: seq<int> -> seq<Vec>, rows: seq<seq<int>>, i: nat)
    requires PaddingIndependent(m, hidden) && i < |rows| && RunPadded(m, rows).Some?
    requires var e := Padded(rows, m.tok.padId);
      Fits(Mean, RunPadded(m, rows).value, Flatten(e.mask), |rows|, e.seqLen, m.dim)
    ensures var e := Padded(rows, m.tok.padId);
      ShownRows(RunPadded(m, rows).value, Flatten(e.mask), |rows|, e.seqLen, m.dim, i) == hidden(rows[i])
  {
    var e, t := Padded(rows, m.tok.padId), RunPadded(m, rows).value;
    PaddedIsSent(rows, m.tok.padId);
    SentRow(rows, m.tok.padId, Flatten(e.ids), Flatten(e.mask), Zeros(|rows| * e.seqLen), e.seqLen, i);
    hide SentAs, Padded, Flatten, HoldsRow, HasTextRows, Fits, ShownRows, PaddingIndependent, Zeros;
    RowsOfSent(m, hidden, rows, Flatten(e.ids), Flatten(e.mask), Zeros(|rows| * e.seqLen), e.seqLen, i);
    ShownOfText(t, Flatten(e.ids), Flatten(e.mask), |rows|, e.seqLen, m.dim, i, rows[i], m.tok.padId, hidden(rows[i]));
  }

  /** CLS pooling needs a first token. */
  ghost predicate StartsWithToken(m: Model) {
    m.pooling.Cls? ==> m.tok.maxLength > 0 && forall t :: !m.tok.throws(t) ==> m.tok.encodeSingle(t) != []
  }

  ghost function PoolShown(p: Pooling, rows: seq<Vec>, dim: nat): (r: Vec)
    requires Wide(rows, dim)
    ensures |r| == dim
  {
    if p.Cls? && rows != [] then rows[0] else MeanOf(rows, dim)
  }

  /** The embedding of one text on its own. */
  ghost function TextVector(m: Model, hidden: seq<int> -> seq<Vec>, text: string): Vec
    requires WideHidden(hidden, m.dim)
  {
    NormalizedRow(PoolShown(m.pooling, hidden(Truncated(m.tok.encodeSingle(text), m.tok.maxLength)), m.dim), m.root)
  }

  /** The embedding of a text, component by component: its tokens are cut at the maximum length, the rows that the model
      computes for them are averaged, or the first one is taken, and the result is divided by its length. */
  lemma {:induction false} EmbeddingOfText(m: Model, hidden: seq<int> -> seq<Vec>, text: string, d: nat)
    returns (rows: seq<Vec>, pooled: Vec)
    requires WideHidden(hidden, m.dim) && IsSqrt(m.root) && d < m.dim
    ensures forall tokens :: IsCut(tokens, m.tok.encodeSingle(text), m.tok.maxLength) ==> rows == hidden(tokens)
    ensures |pooled| == m.dim == |TextVector(m, hidden, text)|
    ensures m.pooling.Cls? && rows != [] ==> pooled == rows[0]
    ensures !(m.pooling.Cls? && rows != []) ==> pooled[d] * |rows| as real == SumBy(rows, Component(d))
    ensures rows == [] ==> pooled[d] == 0.0
    ensures var norm := m.root(Dot(pooled, pooled));
      if norm > 0.000000000001 then TextVector(m, hidden, text)[d] * norm == pooled[d]
      else TextVector(m, hidden, text)[d] == 0.0
  {
    rows := RowsOfText(m, hidden, text);
    pooled := PoolShown(m.pooling, rows, m.dim);
    hide NormalizedRow, MeanOf, Component, SumBy, Dot, IsSqrt, Truncated, IsCut, Wide, WideHidden;
    if !(m.pooling.Cls? && rows != []) {
      MeanIsAverage(rows, m.dim, d, pooled[d]);
    }
    NormalizedRowIs(pooled, m.root, d, TextVector(m, hidden, text)[d], m.root(Dot(pooled, pooled)));
  }

  lemma {:induction false} RowsOfText(m: Model, hidden: seq<int> -> seq<Vec>, text: string) returns (rows: seq<Vec>)
    requires WideHidden(hidden, m.dim)
    ensures rows == hidden(Truncated(m.tok.encodeSingle(text), m.tok.maxLength)) && Wide(rows, m.dim)
    ensures forall tokens :: IsCut(tokens, m.tok.encodeSingle(text), m.tok.maxLength) ==> rows == hidden(tokens)
  {
    var tokens := Truncated(m.tok.encodeSingle(text), m.tok.maxLength);
    rows := hidden(tokens);
    hide Truncated, IsCut;
    forall t | IsCut(t, m.tok.encodeSingle(text), m.tok.maxLength) ensures t == tokens {
      TruncatedIsCut(t, m.tok.encodeSingle(text), m.tok.maxLength);
    }
  }

  ghost function VectorOf(m: Model, hidden: seq<int> -> seq<Vec>): string -> Vec
    requires WideHidden(hidden, m.dim)
  {
    (text: string) => TextVector(m, hidden, text)
  }

  lemma VectorOfText(m: Model, hidden: seq<int> -> seq<Vec>, text: string)
    requires WideHidden(hidden, m.dim)
    ensures VectorOf(m, hidden)(text) == TextVector(m, hidden, text)
  {
  }

  lemma {:induction false} FirstVisible(data: seq<real>, mask: seq<int>, first: nat, len: nat, dim: nat)
    requires Shaped(data, mask, dim) && 0 < len && first + len <= |mask| && mask[first] != 0
    ensures var rows := VisibleRows(data, mask, first, len, dim);
      rows != [] && rows[0] == TokenRow(data, first, dim)
  {
    if len > 1 {
      FirstVisible(data, mask, first, len - 1, dim);
    } else {
      assert VisibleRows(data, mask, first, 0, dim) == [];
    }
  }

  /** Pooling reads the shown rows only. */
  lemma {:induction false} PooledFromShown(p: Pooling, t: Tensor, mask: seq<int>, n: nat, len: nat, dim: nat, i: nat)
    requires Fits(p, t, mask, n, len, dim) && Fits(Mean, t, mask, n, len, dim) && i < n
    requires i * len + len <= |mask| && (t.perToken && p.Cls? ==> mask[i * len] != 0)
    ensures PooledRow(p, t, mask, n, len, dim, i) == PoolShown(p, ShownRows(t, mask, n, len, dim, i), dim)
  {
    TextFits(p, t, mask, n, len, dim, i);
    if t.perToken {
      if p.Cls? {
        FirstVisible(t.data, mask, i * len, len, dim);
      }
    } else {
      MeanOfOne(TokenRow(t.data, i, dim));
    }
  }

  lemma {:induction false} FirstIsShown(tok: Tokenizer, texts: seq<string>, i: nat)
    requires i < |texts| && tok.encodeSingle(texts[i]) != [] && tok.maxLength > 0
    ensures var e := EncodeBatch(tok, texts);
      e.seqLen > 0 && e.mask[i][0] == 1
  {
    LongestIsUpperBound(tok, texts, i);
  }

  lemma {:induction false} FlatCell(rows: seq<seq<int>>, len: nat, i: nat)
    requires i < |rows| && len > 0 && forall r :: 0 <= r < |rows| ==> |rows[r]| == len
    ensures i * len + len <= |Flatten(rows)| && Flatten(rows)[i * len] == rows[i][0]
  {
    FlattenRows(rows, len, i);
    assert (i + 1) * len == i * len + len;
    assert RowOf(Flatten(rows), i, len)[0] == Flatten(rows)[i * len];
  }

  lemma {:induction false} MaskStart(m: Model, texts: seq<string>, i: nat)
    requires StartsWithToken(m) && Encodes(m.tok, texts) && i < |texts|
    ensures var e := EncodeBatch(m.tok, texts);
      i * e.seqLen + e.seqLen <= |Flatten(e.mask)|
      && (m.pooling.Cls? ==> e.seqLen > 0 && Flatten(e.mask)[i * e.seqLen] != 0)
  {
    var e := EncodeBatch(m.tok, texts);
    FlattenRows(e.mask, e.seqLen, i);
    assert (i + 1) * e.seqLen == i * e.seqLen + e.seqLen;
    if m.pooling.Cls? {
      assert texts[i] in texts;
      FirstIsShown(m.tok, texts, i);
      FlatCell(e.mask, e.seqLen, i);
    }
  }

  lemma HiddenIsWide(m: Model, hidden: seq<int> -> seq<Vec>)
    requires PaddingIndependent(m, hidden)
    ensures WideHidden(hidden, m.dim)
  {
  }

  /** What a batch shows of text i is computed from that text's own tokens. */
  lemma {:induction false} ShownInBatch(m: Model, hidden: seq<int> -> seq<Vec>, texts: seq<string>, i: nat)
    requires PaddingIndependent(m, hidden) && RunBatch(m, texts).Some? && i < |texts|
    requires var e := EncodeBatch(m.tok, texts);
      Fits(Mean, RunBatch(m, texts).value, Flatten(e.mask), |texts|, e.seqLen, m.dim)
    ensures var e := EncodeBatch(m.tok, texts);
      ShownRows(RunBatch(m, texts).value, Flatten(e.mask), |texts|, e.seqLen, m.dim, i)
      == hidden(Truncated(m.tok.encodeSingle(texts[i]), m.tok.maxLength))
  {
    EncodedIsPadded(m.tok, texts);
    hide EncodeBatch, Padded, Flatten, ShownRows, Fits;
    assert RunPadded(m, TokenRows(m.tok, texts)) == RunBatch(m, texts);
    PaddedRowsShown(m, hidden, TokenRows(m.tok, texts), i);
  }

  lemma {:induction false} BatchVectorAt(m: Model, hidden: seq<int> -> seq<Vec>, texts: seq<string>, i: nat)
    requires ValidModel(m) && PaddingIndependent(m, hidden) && StartsWithToken(m)
    requires BatchVectors(m, texts).Some? && i < |texts|
    ensures BatchVectors(m, texts).value[i] == TextVector(m, hidden, texts[i])
  {
    var e, t := EncodeBatch(m.tok, texts), RunBatch(m, texts).value;
    MaskStart(m, texts, i);
    HiddenIsWide(m, hidden);
    hide EncodeBatch, Flatten, PooledRow, VisibleRows, NormalizedRow, PaddingIndependent, ShownRows, PoolShown;
    FitsEither(m.pooling, t, Flatten(e.mask), |texts|, e.seqLen, m.dim);
    PooledFromShown(m.pooling, t, Flatten(e.mask), |texts|, e.seqLen, m.dim, i);
    ShownInBatch(m, hidden, texts, i);
  }

  lemma FitsEither(p: Pooling, t: Tensor, mask: seq<int>, n: nat, len: nat, dim: nat)
    requires Fits(p, t, mask, n, len, dim)
    ensures Fits(Mean, t, mask, n, len, dim)
  {
  }

  lemma {:induction false} VectorsAreItemWise(m: Model, hidden: seq<int> -> seq<Vec>)
    requires ValidModel(m) && PaddingIndependent(m, hidden) && StartsWithToken(m)
    ensures ItemWise(Outcome(m), VectorOf(m, hidden))
  {
    HiddenIsWide(m, hidden);
    hide BatchVectors, TextVector, ValidModel, StartsWithToken, PaddingIndependent;
    forall texts: seq<string>, i | 0 <= i < |texts| && Outcome(m)(texts).Some?
      ensures Outcome(m)(texts).value[i] == VectorOf(m, hidden)(texts[i])
    {
      BatchVectorAt(m, hidden, texts, i);
    }
  }

  /** Some vector of a complete placement stands at each place. */
  lemma {:induction false} PlacedAt(result: Vec, order: seq<nat>, vectors: seq<Vec>, dim: nat, n: nat, k: nat)
    returns (j: nat)
    requires IsOrder(order, n) && Placed(result, order, vectors, dim) && |vectors| == n && k < n
    ensures j < n && j < |order| && order[j] == k
    ensures Mul(k, dim) + dim <= |result| && RowAt(result, k, dim) == vectors[j]
  {
    hide Mul, RowAt;
    OrderCovers(order, n);
    assert k in order;
    j :| 0 <= j < |order| && order[j] == k;
  }

  lemma {:induction false} BatchedVectorAt(m: Model, hidden: seq<int> -> seq<Vec>, items: seq<string>, b: nat, j: nat)
    requires ValidModel(m) && PaddingIndependent(m, hidden) && StartsWithToken(m) && b > 0 && j < |items|
    requires InBatches(Outcome(m), items, b, 0).Some?
    ensures InBatches(Outcome(m), items, b, 0).value[j] == TextVector(m, hidden, items[j])
  {
    HiddenIsWide(m, hidden);
    VectorsAreItemWise(m, hidden);
    VectorOfText(m, hidden, items[j]);
    hide Outcome, VectorOf, TextVector, InBatches, ItemWise, OnePerItem, ValidModel, PaddingIndependent, WideHidden;
    InBatchesAt(Outcome(m), VectorOf(m, hidden), items, b, 0, j);
  }

  lemma {:induction false} VectorAt(m: Model, hidden: seq<int> -> seq<Vec>, texts: seq<string>, order: seq<nat>,
                                    b: nat, j: nat)
    requires ValidModel(m) && PaddingIndependent(m, hidden) && StartsWithToken(m) && b > 0 && j < |texts|
    requires IsOrder(order, |texts|) && AllVectors(m, texts, order, b).Some?
    ensures |order| == |texts| && order[j] < |texts|
    ensures AllVectors(m, texts, order, b).value[j] == TextVector(m, hidden, texts[order[j]])
  {
    hide Outcome, ValidModel, StartsWithToken, TextVector, IsOrder, InBatches, PaddingIndependent;
    BatchedVectorAt(m, hidden, InOrder(texts, order), b, j);
  }

  /** With a padding-independent session row k of the result is the embedding of text k alone, under every strategy
      and every batch size. */
  lemma {:induction false} EmbeddingsInPlace(m: Model, hidden: seq<int> -> seq<Vec>, texts: seq<string>,
                                             order: seq<nat>, b: nat,
                                             result: Vec, k: nat)
    requires ValidModel(m) && PaddingIndependent(m, hidden) && StartsWithToken(m) && b > 0
    requires IsOrder(order, |texts|) && AllVectors(m, texts, order, b).Some?
    requires Placed(result, order, AllVectors(m, texts, order, b).value, m.dim) && k < |texts|
    ensures Mul(k, m.dim) + m.dim <= |result| && RowAt(result, k, m.dim) == TextVector(m, hidden, texts[k])
  {
    hide AllVectors, ValidModel, StartsWithToken, TextVector, IsOrder, Mul, RowAt, Placed;
    var j := PlacedAt(result, order, AllVectors(m, texts, order, b).value, m.dim, |texts|, k);
    VectorAt(m, hidden, texts, order, b, j);
  }

  ghost predicate UnitOrNull(row: Vec) {
    NormSq(row) == 1.0 || forall d :: 0 <= d < |row| ==> row[d] == 0.0
  }

  lemma {:induction false} BatchRowsAreUnit(m: Model, texts: seq<string>, i: nat)
    requires ValidModel(m) && IsSqrt(m.root) && BatchVectors(m, texts).Some? && i < |texts|
    ensures UnitOrNull(BatchVectors(m, texts).value[i])
  {
    var e, t := EncodeBatch(m.tok, texts), RunBatch(m, texts).value;
    var row := PooledRow(m.pooling, t, Flatten(e.mask), |texts|, e.seqLen, m.dim, i);
    hide PooledRow, EncodeBatch, Flatten;
    UnitOrZero(row, m.root);
  }

  lemma {:induction false} AllUnitOrNull(m: Model, items: seq<string>, b: nat)
    requires ValidModel(m) && IsSqrt(m.root) && b > 0 && InBatches(Outcome(m), items, b, 0).Some?
    ensures forall j :: 0 <= j < |items| ==> UnitOrNull(InBatches(Outcome(m), items, b, 0).value[j])
  {
    hide BatchVectors, ValidModel, UnitOrNull, InBatches, IsSqrt, OnePerItem;
    var f, good := Outcome(m), (row: Vec) => UnitOrNull(row);
    forall batch: seq<string>, i | 0 <= i < |batch| && f(batch).Some? ensures good(f(batch).value[i]) {
      OutcomeOf(m, batch);
      BatchRowsAreUnit(m, batch, i);
    }
    InBatchesEvery(f, good, items, b, 0);
    forall j | 0 <= j < |items| ensures UnitOrNull(InBatches(f, items, b, 0).value[j]) {
      assert good(InBatches(f, items, b, 0).value[j]);
    }
  }

  /** Every returned row has norm 1 or is all zero, whatever the session computes. */
  lemma {:induction false} RowsAreUnitOrNull(m: Model, texts: seq<string>, order: seq<nat>, b: nat, result: Vec, k: nat)
    requires ValidModel(m) && IsSqrt(m.root) && b > 0
    requires IsOrder(order, |texts|) && AllVectors(m, texts, order, b).Some?
    requires Placed(result, order, AllVectors(m, texts, order, b).value, m.dim) && k < |texts|
    ensures Mul(k, m.dim) + m.dim <= |result| && UnitOrNull(RowAt(result, k, m.dim))
  {
    hide Outcome, ValidModel, IsOrder, Mul, UnitOrNull, InBatches, IsSqrt, RowAt, Placed, OnePerItem;
    var j := PlacedAt(result, order, AllVectors(m, texts, order, b).value, m.dim, |texts|, k);
    AllUnitOrNull(m, InOrder(texts, order), b);
  }
}
