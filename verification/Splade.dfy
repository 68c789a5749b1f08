/** SPLADE postprocessing: per text and vocabulary entry the largest log(1 + logit) over the visible tokens, kept as
    a sparse vector of the positive entries. */
module Splade {
  import opened Batching
  import opened SparseTerms
  import opened TokenTensor
  import SparseDot
  import VectorGeometry

  datatype SparseResult = SparseResult(indices: seq<int>, values: seq<real>)

  /** What is used of log(1 + x): positive and non-decreasing on the positive reals. */
  ghost predicate IsLog1p(log1p: real -> real) {
    && (forall x :: x > 0.0 ==> log1p(x) > 0.0)
    && (forall x, y :: 0.0 < x <= y ==> log1p(x) <= log1p(y))
  }

  function Max(x: real, y: real): real { if y > x then y else x }

  function Activation(log1p: real -> real, x: real): real { if x > 0.0 then log1p(x) else 0.0 }

  /** The score of vocabulary entry v, token by token. */
  function Score(log1p: real -> real, rows: seq<seq<real>>, v: nat): (r: real)
    requires forall i :: 0 <= i < |rows| ==> v < |rows[i]|
    ensures r >= 0.0
  {
    if rows == [] then 0.0
    else Max(Score(log1p, rows[..|rows| - 1], v), Activation(log1p, rows[|rows| - 1][v]))
  }

  ghost function ScoreVector(log1p: real -> real, rows: seq<seq<real>>, vocab: nat): (r: seq<real>)
    requires Wide(rows, vocab)
    ensures |r| == vocab && forall v :: 0 <= v < vocab ==> r[v] == Score(log1p, rows, v)
  {
    seq(vocab, v requires 0 <= v < vocab => Score(log1p, rows, v))
  }

  /** The score is positive exactly when some visible token has a positive logit, and is then the activation of the
      largest one. */
  lemma {:induction false} ScoreIsMax(log1p: real -> real, rows: seq<seq<real>>, v: nat)
    requires IsLog1p(log1p) && forall i :: 0 <= i < |rows| ==> v < |rows[i]|
    ensures forall i :: 0 <= i < |rows| && rows[i][v] > 0.0 ==> log1p(rows[i][v]) <= Score(log1p, rows, v)
    ensures Score(log1p, rows, v) > 0.0 <==> exists i :: 0 <= i < |rows| && rows[i][v] > 0.0
    ensures Score(log1p, rows, v) > 0.0 ==>
      exists i :: 0 <= i < |rows| && rows[i][v] > 0.0 && Score(log1p, rows, v) == log1p(rows[i][v])
  {
    if rows != [] {
      var n := |rows| - 1;
      var front := rows[..n];
      ScoreIsMax(log1p, front, v);
      assert forall i :: 0 <= i < n ==> front[i] == rows[i];
      if rows[n][v] > 0.0 && log1p(rows[n][v]) > Score(log1p, front, v) {
        assert Score(log1p, rows, v) == log1p(rows[n][v]);
      } else {
        assert Score(log1p, rows, v) == Score(log1p, front, v);
      }
    }
  }

  // ----- extracting the positive entries -----

  function Extracted(scores: seq<real>): (r: SparseResult)
    ensures |r.indices| == |r.values|
  {
    if scores == [] then SparseResult([], [])
    else
      var n := |scores| - 1;
      var front := Extracted(scores[..n]);
      if scores[n] > 0.0 then SparseResult(front.indices + [n], front.values + [scores[n]]) else front
  }

  function Terms(r: SparseResult): seq<Term> { Zip(r.indices, r.values) }

  ghost predicate Ascending(indices: seq<int>) {
    forall i, j :: 0 <= i < j < |indices| ==> indices[i] < indices[j]
  }

  /** Every value is the positive score at its index. */
  ghost predicate ScoresAt(r: SparseResult, scores: seq<real>) {
    && |r.indices| == |r.values|
    && forall i :: 0 <= i < |r.indices| ==>
         0 <= r.indices[i] < |scores| && r.values[i] == scores[r.indices[i]] && r.values[i] > 0.0
  }

  lemma {:induction false} AscendingSnoc(indices: seq<int>, n: int)
    requires Ascending(indices) && forall i :: 0 <= i < |indices| ==> indices[i] < n
    ensures Ascending(indices + [n])
  {
    var r := indices + [n];
    forall i, j | 0 <= i < j < |r| ensures r[i] < r[j] {
      assert r[i] == indices[i] && (j < |indices| ==> r[j] == indices[j]);
    }
  }

  lemma ScoresAtSnoc(r: SparseResult, front: seq<real>, x: real)
    requires ScoresAt(r, front)
    ensures ScoresAt(r, front + [x])
    ensures x > 0.0 ==> ScoresAt(SparseResult(r.indices + [|front|], r.values + [x]), front + [x])
  {
  }

  /** The indices of an extracted vector increase strictly, and every value is the positive score at its index. */
  lemma {:induction false} ExtractedTerms(scores: seq<real>)
    ensures Ascending(Extracted(scores).indices) && ScoresAt(Extracted(scores), scores)
  {
    if scores != [] {
      var n := |scores| - 1;
      var front := scores[..n];
      var r := Extracted(front);
      ExtractedTerms(front);
      AscendingSnoc(r.indices, n);
      assert scores == front + [scores[n]];
      ScoresAtSnoc(r, front, scores[n]);
      hide Ascending, ScoresAt;
    }
  }

  lemma {:induction false} GetOfExtracted(scores: seq<real>, v: nat)
    requires v < |scores| && forall k :: 0 <= k < |scores| ==> scores[k] >= 0.0
    ensures SparseDot.Get(Terms(Extracted(scores)), v) == scores[v]
  {
    var n := |scores| - 1;
    var front := scores[..n];
    if scores[n] > 0.0 {
      assert Terms(Extracted(scores)) == Terms(Extracted(front)) + [Term(n, scores[n])];
    }
    if v < n {
      GetOfExtracted(front, v);
    } else if scores[n] == 0.0 {
      ExtractedTerms(front);
      SparseDot.GetAbsent(Terms(Extracted(front)), n);
    }
  }

  /** The sparse vector loses nothing: scattering it gives the scores back. */
  lemma {:induction false} ScatterOfExtracted(scores: seq<real>)
    requires forall k :: 0 <= k < |scores| ==> scores[k] >= 0.0
    ensures SparseDot.Scatter(Terms(Extracted(scores)), |scores|) == scores
  {
    forall v | 0 <= v < |scores| ensures SparseDot.Get(Terms(Extracted(scores)), v) == scores[v] {
      GetOfExtracted(scores, v);
    }
  }

  /** Both sparse dot products of two postprocessed texts are the dense dot product of their score vectors. */
  lemma {:induction false} SparseDotIsScoreDot(q: seq<real>, d: seq<real>)
    requires |q| == |d|
    requires forall k :: 0 <= k < |q| ==> q[k] >= 0.0 && d[k] >= 0.0
    ensures var tq, td := Terms(Extracted(q)), Terms(Extracted(d));
      SparseDot.NestedDot(tq, td) == SparseDot.LookupDot(tq, td) == VectorGeometry.Dot(q, d)
  {
    ExtractedTerms(q);
    ExtractedTerms(d);
    ScatterOfExtracted(q);
    ScatterOfExtracted(d);
    SparseDot.SparseDotsAgree(Terms(Extracted(q)), Terms(Extracted(d)), |q|);
  }

  // ----- the loops -----

  /** Raises the scores of one text to the activations of one token. */
  method RaiseScores(log1p: real -> real, scores: array<real>, tok: seq<real>)
    requires |tok| == scores.Length && forall v :: 0 <= v < scores.Length ==> scores[v] >= 0.0
    modifies scores
    ensures forall v :: 0 <= v < scores.Length ==> scores[v] == Max(old(scores[v]), Activation(log1p, tok[v]))
  {
    for v := 0 to scores.Length
      invariant forall k :: 0 <= k < v ==> scores[k] == Max(old(scores[k]), Activation(log1p, tok[k]))
      invariant forall k :: v <= k < scores.Length ==> scores[k] == old(scores[k])
    {
      var val := tok[v];
      if val > 0.0 {
        val := log1p(val);
        if val > scores[v] {
          scores[v] := val;
        }
      }
    }
  }

  lemma {:induction false} VisibleStep(log1p: real -> real, data: seq<real>, mask: seq<int>, first: nat, s: nat,
                                       vocab: nat)
    requires Shaped(data, mask, vocab) && first + s < |mask|
    ensures forall v :: 0 <= v < vocab ==>
      Score(log1p, VisibleRows(data, mask, first, s + 1, vocab), v)
      == if mask[first + s] == 0 then Score(log1p, VisibleRows(data, mask, first, s, vocab), v)
         else Max(Score(log1p, VisibleRows(data, mask, first, s, vocab), v),
                  Activation(log1p, TokenRow(data, first + s, vocab)[v]))
  {
    var rows, row := VisibleRows(data, mask, first, s, vocab), TokenRow(data, first + s, vocab);
    assert (rows + [row])[..|rows|] == rows;
  }

  method PoolText(log1p: real -> real, data: seq<real>, mask: seq<int>, first: nat, len: nat, vocab: nat)
    returns (scores: array<real>)
    requires Shaped(data, mask, vocab) && first + len <= |mask|
    ensures scores[..] == ScoreVector(log1p, VisibleRows(data, mask, first, len, vocab), vocab)
    ensures fresh(scores)
  {
    scores := new real[vocab](_ => 0.0);
    hide VisibleRows;
    NothingVisible(log1p, data, mask, first, vocab);
    for s := 0 to len
      invariant scores[..] == ScoreVector(log1p, VisibleRows(data, mask, first, s, vocab), vocab)
    {
      hide ScoreVector;
      PoolToken(log1p, data, mask, first, s, vocab, scores);
    }
  }

  lemma {:induction false} NothingVisible(log1p: real -> real, data: seq<real>, mask: seq<int>, first: nat, vocab: nat)
    requires Shaped(data, mask, vocab) && first <= |mask|
    ensures forall v :: 0 <= v < vocab ==> ScoreVector(log1p, VisibleRows(data, mask, first, 0, vocab), vocab)[v] == 0.0
  {
  }

  /** One token of a text; a masked one changes nothing. */
  method PoolToken(log1p: real -> real, data: seq<real>, mask: seq<int>, first: nat, s: nat, vocab: nat,
                   scores: array<real>)
    requires Shaped(data, mask, vocab) && first + s < |mask| && scores.Length == vocab
    requires scores[..] == ScoreVector(log1p, VisibleRows(data, mask, first, s, vocab), vocab)
    modifies scores
    ensures scores[..] == ScoreVector(log1p, VisibleRows(data, mask, first, s + 1, vocab), vocab)
  {
    VisibleStep(log1p, data, mask, first, s, vocab);
    hide TokenRow, Activation, Max, Score, VisibleRows;
    ghost var before := scores[..];
    assert forall v :: 0 <= v < vocab ==> before[v] == scores[v];
    if mask[first + s] != 0 {
      RaiseScores(log1p, scores, TokenRow(data, first + s, vocab));
    }
  }

  method Extract(scores: array<real>) returns (r: SparseResult)
    ensures r == Extracted(scores[..])
  {
    var indices: seq<int>, values: seq<real> := [], [];
    for v := 0 to scores.Length
      invariant SparseResult(indices, values) == Extracted(scores[..v])
    {
      assert scores[..v + 1][..v] == scores[..v];
      if scores[v] > 0.0 {
        indices, values := indices + [v], values + [scores[v]];
      }
    }
    assert scores[..scores.Length] == scores[..];
    r := SparseResult(indices, values);
  }

  ghost function TextResult(log1p: real -> real, rows: seq<seq<real>>, vocab: nat): (r: SparseResult)
    requires Wide(rows, vocab)
  {
    Extracted(ScoreVector(log1p, rows, vocab))
  }

  /** Every positive score is stored, at its index. */
  lemma {:induction false} PositiveIsStored(scores: seq<real>, v: nat) returns (k: nat)
    requires v < |scores| && scores[v] > 0.0
    ensures var r := Extracted(scores);
      k < |r.indices| && r.indices[k] == v && r.values[k] == scores[v]
  {
    var n := |scores| - 1;
    if v == n {
      k := |Extracted(scores[..n]).indices|;
    } else {
      k := PositiveIsStored(scores[..n], v);
    }
  }

  /** The stored entries of rows of logits: entry v has a place exactly when some row has a positive logit there, and
      holds the largest log(1 + logit) of these. */
  lemma {:induction false} EntryOfRows(log1p: real -> real, rows: seq<seq<real>>, vocab: nat, v: nat)
    requires IsLog1p(log1p) && Wide(rows, vocab) && v < vocab
    ensures var r := TextResult(log1p, rows, vocab);
      && Ascending(r.indices) && |r.indices| == |r.values|
      && (v in r.indices <==> exists i :: 0 <= i < |rows| && rows[i][v] > 0.0)
      && forall k :: 0 <= k < |r.indices| && r.indices[k] == v ==>
           && (exists i :: 0 <= i < |rows| && rows[i][v] > 0.0 && r.values[k] == log1p(rows[i][v]))
           && forall i :: 0 <= i < |rows| && rows[i][v] > 0.0 ==> log1p(rows[i][v]) <= r.values[k]
  {
    var scores := ScoreVector(log1p, rows, vocab);
    ExtractedTerms(scores);
    ScoreIsMax(log1p, rows, v);
    if scores[v] > 0.0 {
      var k := PositiveIsStored(scores, v);
    }
    hide Extracted, Score, Ascending;
  }

  /** x is the logit of entry v of the s-th token from `first` on, which the mask shows, and it is positive. */
  ghost predicate IsLogit(data: seq<real>, mask: seq<int>, first: nat, len: nat, vocab: nat, v: nat, s: nat, x: real) {
    && s < len && first + s < |mask| && mask[first + s] != 0
    && (first + s) * vocab + v < |data| && data[(first + s) * vocab + v] == x && x > 0.0
  }

  /** What is stored of a text, from the tensor's cells alone. A positive logit of a shown token is stored: its entry
      has a place, with at least its log(1 + logit). */
  lemma {:induction false} LogitIsStored(log1p: real -> real, data: seq<real>, mask: seq<int>, first: nat, len: nat,
                                         vocab: nat, v: nat, s: nat, x: real) returns (k: nat)
    requires IsLog1p(log1p) && Shaped(data, mask, vocab) && first + len <= |mask| && v < vocab
    requires IsLogit(data, mask, first, len, vocab, v, s, x)
    ensures var r := TextResult(log1p, VisibleRows(data, mask, first, len, vocab), vocab);
      k < |r.indices| == |r.values| && r.indices[k] == v && log1p(x) <= r.values[k]
  {
    var rows := VisibleRows(data, mask, first, len, vocab);
    var i := TokenIsShown(data, mask, first, len, vocab, s);
    LogitOfRow(data, first + s, vocab, v);
    hide Extracted, Score, VisibleRows, Shaped;
    ScoreIsMax(log1p, rows, v);
    assert rows[i][v] == x;
    k := PositiveIsStored(ScoreVector(log1p, rows, vocab), v);
  }

  /** And what is stored at a place is the log(1 + logit) of a shown token's positive logit; indices ascend. */
  lemma {:induction false} StoredIsLogit(log1p: real -> real, data: seq<real>, mask: seq<int>, first: nat, len: nat,
                                         vocab: nat, k: nat) returns (s: nat, x: real)
    requires IsLog1p(log1p) && Shaped(data, mask, vocab) && first + len <= |mask|
    requires k < |TextResult(log1p, VisibleRows(data, mask, first, len, vocab), vocab).indices|
    ensures var r := TextResult(log1p, VisibleRows(data, mask, first, len, vocab), vocab);
      && Ascending(r.indices) && k < |r.values| && 0 <= r.indices[k] < vocab
      && IsLogit(data, mask, first, len, vocab, r.indices[k], s, x) && r.values[k] == log1p(x)
  {
    var rows := VisibleRows(data, mask, first, len, vocab);
    hide Extracted, Score, VisibleRows, Ascending, Shaped, IsLog1p, Activation;
    var i;
    i, x := StoredIsOfRow(log1p, rows, vocab, k);
    s := ShownIsToken(data, mask, first, len, vocab, i);
    assert (first + s) * vocab + vocab <= |data|;
    LogitOfRow(data, first + s, vocab, TextResult(log1p, rows, vocab).indices[k]);
  }

  lemma {:induction false} StoredIsOfRow(log1p: real -> real, rows: seq<seq<real>>, vocab: nat, k: nat)
    returns (i: nat, x: real)
    requires IsLog1p(log1p) && Wide(rows, vocab) && k < |TextResult(log1p, rows, vocab).indices|
    ensures var r := TextResult(log1p, rows, vocab);
      && Ascending(r.indices) && k < |r.values| && 0 <= r.indices[k] < vocab
      && i < |rows| && x == rows[i][r.indices[k]] && x > 0.0 && r.values[k] == log1p(x)
  {
    var scores := ScoreVector(log1p, rows, vocab);
    ExtractedTerms(scores);
    hide Extracted, Score, Ascending;
    var v := Extracted(scores).indices[k];
    ScoreIsMax(log1p, rows, v);
    i :| 0 <= i < |rows| && rows[i][v] > 0.0 && Score(log1p, rows, v) == log1p(rows[i][v]);
    x := rows[i][v];
  }

  lemma LogitOfRow(data: seq<real>, token: nat, vocab: nat, v: nat)
    requires token * vocab + vocab <= |data| && v < vocab
    ensures token * vocab + v < |data| && TokenRow(data, token, vocab)[v] == data[token * vocab + v]
  {
  }

  /** One result per text of the batch, each from the visible tokens of that text alone. */
  method SpladePostprocess(log1p: real -> real, data: seq<real>, mask: seq<int>, batch: nat, len: nat, vocab: nat)
    returns (results: seq<SparseResult>)
    requires Shaped(data, mask, vocab) && batch * len <= |mask|
    ensures results == Postprocessed(log1p, data, mask, batch, len, vocab)
  {
    results := [];
    for b := 0 to batch
      invariant b * len <= |mask| && results == Postprocessed(log1p, data, mask, b, len, vocab)
    {
      assert (b + 1) * len == b * len + len;
      Product(b + 1, batch, len);
      var scores := PoolText(log1p, data, mask, b * len, len, vocab);
      var r := Extract(scores);
      results := results + [r];
    }
  }

  ghost function Postprocessed(log1p: real -> real, data: seq<real>, mask: seq<int>, batch: nat, len: nat, vocab: nat):
    (r: seq<SparseResult>)
    requires Shaped(data, mask, vocab) && batch * len <= |mask|
    ensures |r| == batch
  {
    if batch == 0 then []
    else
      assert batch * len == (batch - 1) * len + len;
      Postprocessed(log1p, data, mask, batch - 1, len, vocab)
      + [TextResult(log1p, VisibleRows(data, mask, (batch - 1) * len, len, vocab), vocab)]
  }

  lemma {:induction false} PostprocessedAt(log1p: real -> real, data: seq<real>, mask: seq<int>,
                                           batch: nat, len: nat, vocab: nat, i: nat)
    requires Shaped(data, mask, vocab) && batch * len <= |mask| && i < batch
    ensures i * len + len <= batch * len
    ensures Postprocessed(log1p, data, mask, batch, len, vocab)[i]
         == TextResult(log1p, VisibleRows(data, mask, i * len, len, vocab), vocab)
  {
    assert batch * len == (batch - 1) * len + len;
    if i < batch - 1 {
      PostprocessedAt(log1p, data, mask, batch - 1, len, vocab, i);
    }
  }
}
