/** Dense embedding in batches: encode, run, pool, normalise, and put every row back at its text's place. */
module OnnxBatching {
  import opened Arithmetic
  import opened Batching
  import opened BatchRuns
  import opened Normalize
  import opened PaddingCost
  import opened Pooling
  import opened Sequences
  import opened Sorting
  import opened Status
  import opened Tokenizing
  import opened VectorGeometry

  datatype Strategy = Sequential | Fixed | LengthBucket

  type Session = (seq<int>, seq<int>, seq<int>, nat, nat) -> Option<Tensor>

  datatype Model = Model(tok: Tokenizer, run: Session, pooling: Pooling, dim: nat, root: real -> real)

  /** The tokenizer truncates single encodings to its maximum length. */
  ghost predicate Truncates(tok: Tokenizer) {
    forall t :: |tok.encodeSingle(t)| <= tok.maxLength
  }

  function TokenCount(tok: Tokenizer): string -> nat {
    (t: string) => |tok.encodeSingle(t)|
  }

  /** Encoding and running one batch; None when either throws. */
  function RunBatch(m: Model, texts: seq<string>): Option<Tensor> {
    var e := EncodeBatch(m.tok, texts);
    if Encodes(m.tok, texts) then
      m.run(Flatten(e.ids), Flatten(e.mask), Zeros(|texts| * e.seqLen), |texts|, e.seqLen)
    else None
  }

  /** What one batch comes to: the session runs on the tokens of its texts, laid out row by row, unless some text cannot
      be encoded. */
  lemma {:induction false} RunBatchIs(m: Model, texts: seq<string>, rows: seq<seq<int>>, ids: seq<int>, mask: seq<int>,
                                      types: seq<int>, len: nat)
    requires |rows| == |texts| && SentAs(rows, m.tok.padId, ids, mask, types, len)
    requires forall i :: 0 <= i < |rows| ==> IsCut(rows[i], m.tok.encodeSingle(texts[i]), m.tok.maxLength)
    ensures RunBatch(m, texts)
         == if exists t :: t in texts && m.tok.throws(t) then None else m.run(ids, mask, types, |texts|, len)
  {
    hide SentAs, EncodeBatch;
    SentIsEncoded(m.tok, texts, rows, ids, mask, types, len);
  }

  /** A session that returns at all returns a tensor of the right shape and dimension. */
  ghost predicate ValidModel(m: Model) {
    && m.dim > 0 && Truncates(m.tok)
    && forall texts :: RunBatch(m, texts).Some? ==>
         var e := EncodeBatch(m.tok, texts);
         Fits(m.pooling, RunBatch(m, texts).value, Flatten(e.mask), |texts|, e.seqLen, m.dim)
  }

  /** The normalised pooled rows of one batch; None when its encoding or its run throws. */
  ghost function BatchVectors(m: Model, texts: seq<string>): (r: Option<seq<Vec>>)
    requires ValidModel(m)
    ensures r.Some? ==> |r.value| == |texts| && forall i :: 0 <= i < |texts| ==> |r.value[i]| == m.dim
  {
    match RunBatch(m, texts)
    case None => None
    case Some(t) =>
      var e := EncodeBatch(m.tok, texts);
      Some(seq(|texts|, i requires 0 <= i < |texts| =>
        NormalizedRow(PooledRow(m.pooling, t, Flatten(e.mask), |texts|, e.seqLen, m.dim, i), m.root)))
  }

  ghost function Outcome(m: Model): (f: seq<string> -> Option<seq<Vec>>)
    requires ValidModel(m)
    ensures OnePerItem(f)
  {
    (texts: seq<string>) => BatchVectors(m, texts)
  }

  lemma OutcomeOf(m: Model, texts: seq<string>)
    requires ValidModel(m)
    ensures Outcome(m)(texts) == BatchVectors(m, texts)
  {
  }

  // ----- processing orders -----

  ghost predicate IsOrder(order: seq<nat>, n: nat) {
    multiset(order) == multiset(UpTo(n))
  }

  lemma {:induction false} OrderCovers(order: seq<nat>, n: nat)
    requires IsOrder(order, n)
    ensures |order| == n
    ensures forall j :: 0 <= j < |order| ==> order[j] < n
    ensures forall k :: 0 <= k < n ==> k in order
  {
    PermutationLength(order, UpTo(n));
    PermutationMembers(order, UpTo(n));
    forall j | 0 <= j < |order| ensures order[j] < n {
      assert order[j] in UpTo(n);
    }
    forall k | 0 <= k < n ensures k in order {
      assert UpTo(n)[k] == k;
    }
  }

  lemma {:induction false} OrderDistinct(order: seq<nat>, n: nat, i: nat, j: nat)
    requires IsOrder(order, n) && i < j < |order|
    ensures order[i] != order[j]
  {
    if order[i] == order[j] {
      assert order == order[..j] + [order[j]] + order[j + 1..];
      assert order[i] in order[..j];
      assert multiset(order)[order[i]] >= 2;
      UpToOnce(n, order[i]);
    }
  }

  /** The texts in processing order. */
  ghost function InOrder(texts: seq<string>, order: seq<nat>): (r: seq<string>)
    requires IsOrder(order, |texts|)
    ensures |r| == |texts| == |order|
    ensures forall j :: 0 <= j < |r| ==> order[j] < |texts| && r[j] == texts[order[j]]
  {
    OrderCovers(order, |texts|);
    seq(|order|, j requires 0 <= j < |order| => texts[order[j]])
  }

  /** Longest token count first under length bucketing, as given otherwise. */
  ghost predicate FollowsStrategy(tok: Tokenizer, texts: seq<string>, strategy: Strategy, order: seq<nat>)
    requires IsOrder(order, |texts|)
  {
    if strategy.LengthBucket? then NonIncreasing(Map(TokenCount(tok), InOrder(texts, order)))
    else order == UpTo(|texts|)
  }

  function CountKey(counts: seq<nat>): nat -> real {
    (i: nat) => if i < |counts| then counts[i] as real else 0.0
  }

  /** Whether the texts are encoded once more, to sort them. */
  predicate Sorts(strategy: Strategy, texts: seq<string>) {
    strategy.LengthBucket? && |texts| > 1
  }

  /** The processing order; encoding the texts to count their tokens may throw. */
  method ChooseOrder(tok: Tokenizer, texts: seq<string>, strategy: Strategy) returns (ok: bool, order: seq<nat>)
    ensures IsOrder(order, |texts|)
    ensures ok <==> (Sorts(strategy, texts) ==> Encodes(tok, texts))
    ensures ok ==> FollowsStrategy(tok, texts, strategy, order)
    ensures |order| == |texts| && forall i :: 0 <= i < |order| ==> order[i] < |texts|
    ensures ok && strategy.LengthBucket? ==> forall i, j :: 0 <= i < j < |order| ==>
      |tok.encodeSingle(texts[order[i]])| >= |tok.encodeSingle(texts[order[j]])|
    ensures !strategy.LengthBucket? ==> forall i :: 0 <= i < |order| ==> order[i] == i
  {
    var n := |texts|;
    var indices := new nat[n];
    for i := 0 to n
      invariant indices[..i] == UpTo(n)[..i]
    {
      indices[i] := i;
    }
    assert indices[..] == UpTo(n);
    ok, order := true, indices[..];
    if Sorts(strategy, texts) {
      if !Encodes(tok, texts) {
        return false, order;
      }
      var counts := Map(TokenCount(tok), texts);
      SortInPlace(indices, CountKey(counts));
      order := indices[..];
      OrderCovers(order, n);
      assert forall j :: 0 <= j < n ==> CountKey(counts)(order[j]) == counts[order[j]] as real;
    }
  }

  // ----- one batch -----

  lemma {:induction false} LongestIsMax(tok: Tokenizer, texts: seq<string>)
    ensures LongestEncoding(tok, texts) == MaxOf(Map(TokenCount(tok), texts))
  {
    if texts != [] {
      var n := |texts| - 1;
      assert Map(TokenCount(tok), texts)[..n] == Map(TokenCount(tok), texts[..n]);
      LongestIsMax(tok, texts[..n]);
    }
  }

  /** The padded length of a batch is its longest token count. */
  lemma {:induction false} BatchLength(tok: Tokenizer, texts: seq<string>)
    requires Truncates(tok)
    ensures EncodeBatch(tok, texts).seqLen == MaxOf(Map(TokenCount(tok), texts))
  {
    LongestIsMax(tok, texts);
    MaxOfBounds(Map(TokenCount(tok), texts));
    if texts != [] {
      var counts := Map(TokenCount(tok), texts);
      var i :| 0 <= i < |counts| && counts[i] == MaxOf(counts);
      assert counts[i] == |tok.encodeSingle(texts[i])|;
    }
  }

  /** The rows of a flat buffer. */
  ghost predicate HasRows(buffer: Vec, rows: seq<Vec>, dim: nat) {
    forall i :: 0 <= i < |rows| ==> Mul(i, dim) + dim <= |buffer| && RowAt(buffer, i, dim) == rows[i]
  }

  /** Encodes, flattens and runs one batch; `cells` is the size of its padded tensor. */
  method RunOn(m: Model, texts: seq<string>) returns (out: Option<Tensor>, mask: seq<int>, len: nat, cells: nat)
    requires Truncates(m.tok)
    ensures out == RunBatch(m, texts)
    ensures out.Some? ==> mask == Flatten(EncodeBatch(m.tok, texts).mask) && len == EncodeBatch(m.tok, texts).seqLen
    ensures out.Some? ==> cells == Mul(|texts|, MaxOf(Map(TokenCount(m.tok), texts)))
  {
    hide TokenCount, MaxOf;
    if !Encodes(m.tok, texts) {
      return None, [], 0, 0;
    }
    var enc := EncodeBatch(m.tok, texts);
    var ids, maskFlat := FlattenBatch(enc);
    mask, len := maskFlat[..], enc.seqLen;
    BatchLength(m.tok, texts);
    cells := |texts| * len;
    out := m.run(ids[..], mask, Zeros(|texts| * len), |texts|, len);
  }

  /** Runs, pools and normalises one batch. */
  method RunAndPool(m: Model, texts: seq<string>) returns (ok: bool, pooled: array<real>, cells: nat)
    requires ValidModel(m)
    ensures fresh(pooled)
    ensures ok <==> BatchVectors(m, texts).Some?
    ensures ok ==> HasRows(pooled[..], BatchVectors(m, texts).value, m.dim) && pooled.Length == Mul(|texts|, m.dim)
    ensures ok ==> cells == Mul(|texts|, MaxOf(Map(TokenCount(m.tok), texts)))
  {
    hide RunBatch, EncodeBatch, Flatten, Mul, NormalizedRow, PooledRow, MaxOf, TokenCount, RowAt, Fits;
    var out, mask, len;
    out, mask, len, cells := RunOn(m, texts);
    ok := out.Some?;
    if ok {
      pooled := PoolAndNormalize(m, out.value, mask, |texts|, len);
    } else {
      pooled := new real[0];
    }
  }

  method PoolAndNormalize(m: Model, t: Tensor, mask: seq<int>, n: nat, len: nat) returns (pooled: array<real>)
    requires m.dim > 0 && Fits(m.pooling, t, mask, n, len, m.dim)
    ensures fresh(pooled) && pooled.Length == Mul(n, m.dim)
    ensures forall i :: 0 <= i < n ==>
      && Mul(i, m.dim) + m.dim <= pooled.Length
      && RowAt(pooled[..], i, m.dim) == NormalizedRow(PooledRow(m.pooling, t, mask, n, len, m.dim, i), m.root)
  {
    hide Mul, NormalizedRow, PooledRow;
    pooled := new real[Mul(n, m.dim)];
    Pool(m.pooling, t, mask, n, len, m.dim, pooled);
    ghost var rows := pooled[..];
    L2Normalize(pooled, n, m.dim, m.root);
    NormalizedRows(rows, n, m.dim, m.root);
  }

  // ----- back to the original places -----

  /** The first vectors stand at the places the order names. */
  ghost predicate Placed(result: Vec, order: seq<nat>, vectors: seq<Vec>, dim: nat) {
    && |vectors| <= |order|
    && forall j :: 0 <= j < |vectors| ==>
         Mul(order[j], dim) + dim <= |result| && RowAt(result, order[j], dim) == vectors[j]
  }

  lemma {:induction false} PlaceOneMore(old': Vec, new': Vec, order: seq<nat>, vectors: seq<Vec>, row: Vec,
                                        n: nat, dim: nat)
    requires IsOrder(order, n) && Placed(old', order, vectors, dim) && |vectors| < |order|
    requires SameElsewhere(new', old', Mul(order[|vectors|], dim), dim)
    requires Mul(order[|vectors|], dim) + dim <= |new'| && RowAt(new', order[|vectors|], dim) == row
    ensures Placed(new', order, vectors + [row], dim)
  {
    var k := |vectors|;
    forall j | 0 <= j <= k
      ensures Mul(order[j], dim) + dim <= |new'| && RowAt(new', order[j], dim) == (vectors + [row])[j]
    {
      if j < k {
        OrderDistinct(order, n, j, k);
        OtherRow(new', old', order[k], dim, order[j]);
      }
    }
  }

  /** Copies the rows of one batch to their texts' places. */
  method Scatter(result: array<real>, order: seq<nat>, start: nat, pooled: array<real>, size: nat, dim: nat,
                 ghost n: nat, ghost done: seq<Vec>, ghost rows: seq<Vec>)
    requires IsOrder(order, n) && result.Length == Mul(n, dim) && pooled != result
    requires Placed(result[..], order, done, dim) && |done| == start && start + size <= |order|
    requires |rows| == size && HasRows(pooled[..], rows, dim)
    modifies result
    ensures Placed(result[..], order, done + rows, dim)
  {
    OrderCovers(order, n);
    RowsFit(n, dim);
    hide Mul, IsOrder, RowAt;
    assert done + rows[..0] == done;
    for i := 0 to size
      invariant Placed(result[..], order, done + rows[..i], dim)
    {
      ghost var before := result[..];
      CopyOneRow(result, order[start + i], pooled, i, dim);
      PlaceOneMore(before, result[..], order, done + rows[..i], rows[i], n, dim);
      assert done + rows[..i + 1] == (done + rows[..i]) + [rows[i]];
    }
    assert rows[..size] == rows;
  }

  method CopyOneRow(result: array<real>, place: nat, pooled: array<real>, i: nat, dim: nat)
    requires Mul(place, dim) + dim <= result.Length && Mul(i, dim) + dim <= pooled.Length && pooled != result
    modifies result
    ensures RowAt(result[..], place, dim) == RowAt(pooled[..], i, dim)
    ensures SameElsewhere(result[..], old(result[..]), Mul(place, dim), dim)
  {
    hide Mul;
    CopyCells(result, Mul(place, dim), pooled[Mul(i, dim)..Mul(i, dim) + dim]);
    assert result[..][Mul(place, dim)..Mul(place, dim) + dim] == result[Mul(place, dim)..Mul(place, dim) + dim];
    assert pooled[..][Mul(i, dim)..Mul(i, dim) + dim] == pooled[Mul(i, dim)..Mul(i, dim) + dim];
  }

  // ----- the whole call -----

  ghost function AllVectors(m: Model, texts: seq<string>, order: seq<nat>, b: nat): (r: Option<seq<Vec>>)
    requires ValidModel(m) && IsOrder(order, |texts|) && b > 0
    ensures r.Some? ==> |r.value| == |texts|
  {
    InBatches(Outcome(m), InOrder(texts, order), b, 0)
  }

  function BatchSize(strategy: Strategy, batchSize: nat): nat {
    if strategy.Sequential? then 1 else batchSize
  }

  /** Embeds the texts batch by batch in the order of the strategy. It fails exactly when counting tokens or some batch
      throws; otherwise every row stands at its text's place, and the cells allocated are those of the processing
      order cut into chunks. `runs` counts the session runs. */
  method OnnxEmbed(m: Model, texts: seq<string>, strategy: Strategy, batchSize: nat, result: array<real>)
    returns (ok: bool, cells: nat, ghost order: seq<nat>, ghost runs: nat)
    requires ValidModel(m) && texts != [] && batchSize > 0 && result.Length == Mul(|texts|, m.dim)
    modifies result
    ensures IsOrder(order, |texts|)
    ensures ok <==>
      && (Sorts(strategy, texts) ==> Encodes(m.tok, texts))
      && AllVectors(m, texts, order, BatchSize(strategy, batchSize)).Some?
    ensures ok ==> FollowsStrategy(m.tok, texts, strategy, order)
    ensures ok ==>
      Placed(result[..], order, AllVectors(m, texts, order, BatchSize(strategy, batchSize)).value, m.dim)
    ensures ok ==>
      cells == Cells(Map(TokenCount(m.tok), InOrder(texts, order)), BatchSize(strategy, batchSize))
    ensures ok ==> runs == BatchCount(|texts|, BatchSize(strategy, batchSize))
  {
    var indices;
    ok, indices := ChooseOrder(m.tok, texts, strategy);
    order, cells, runs := indices, 0, 0;
    if !ok {
      return;
    }
    hide FollowsStrategy, AllVectors, Placed, Cells, ValidModel;
    ok, cells, runs := RunBatches(m, texts, indices, BatchSize(strategy, batchSize), result);
  }

  method RunBatches(m: Model, texts: seq<string>, order: seq<nat>, b: nat, result: array<real>)
    returns (ok: bool, cells: nat, ghost runs: nat)
    requires ValidModel(m) && texts != [] && b > 0 && result.Length == Mul(|texts|, m.dim)
    requires IsOrder(order, |texts|)
    modifies result
    ensures ok <==> AllVectors(m, texts, order, b).Some?
    ensures ok ==> Placed(result[..], order, AllVectors(m, texts, order, b).value, m.dim)
    ensures ok ==> cells == Cells(Map(TokenCount(m.tok), InOrder(texts, order)), b)
    ensures ok ==> runs == BatchCount(|texts|, b)
  {
    hide Cells, MaxOf, TokenCount, Mul, ValidModel, Outcome, OnePerItem, InBatches, BatchVectors, IsOrder;
    var n := |texts|;
    ghost var ordered := InOrder(texts, order);
    ghost var lengths, f := Map(TokenCount(m.tok), ordered), Outcome(m);
    ghost var done: seq<Vec> := [];
    cells, runs := 0, 0;
    assert lengths[0..] == lengths;
    NothingDone(InBatches(f, ordered, b, 0));
    var count := CountBatches(n, b);
    for bi := 0 to count
      invariant runs == bi
      invariant |done| == StartOf(n, b, bi) && Placed(result[..], order, done, m.dim)
      invariant AllVectors(m, texts, order, b) == Prepend(done, InBatches(f, ordered, b, StartOf(n, b, bi)))
      invariant cells + Cells(lengths[StartOf(n, b, bi)..], b) == Cells(lengths, b)
    {
      var range := RangeOf(bi, n, b);
      NextBatch(f, ordered, b, range.start, done);
      OutcomeOf(m, ordered[range.start..range.end]);
      var size;
      ok, size, done := EmbedBatch(m, texts, order, range, result, done);
      if !ok {
        return false, 0, runs;
      }
      NextChunk(lengths, b, range.start, range.end);
      cells, runs := cells + size, runs + 1;
    }
    AllDone(f, ordered, b, done);
    NoCells(lengths[n..], b);
    ok := true;
  }

  /** One batch: gather its texts in processing order, embed them, copy the rows to their places. */
  method EmbedBatch(m: Model, texts: seq<string>, order: seq<nat>, range: BatchRange, result: array<real>,
                    ghost done: seq<Vec>)
    returns (ok: bool, cells: nat, ghost done': seq<Vec>)
    requires ValidModel(m) && IsOrder(order, |texts|) && result.Length == Mul(|texts|, m.dim)
    requires 0 <= range.start <= range.end <= |texts|
    requires |done| == range.start && Placed(result[..], order, done, m.dim)
    modifies result
    ensures match BatchVectors(m, InOrder(texts, order)[range.start..range.end])
            case None => !ok
            case Some(rows) => ok && done' == done + rows && Placed(result[..], order, done', m.dim)
    ensures ok ==> |done'| == range.end
    ensures ok ==> cells == Mul(range.end - range.start,
                                MaxOf(Map(TokenCount(m.tok), InOrder(texts, order))[range.start..range.end]))
  {
    hide MaxOf, TokenCount, ValidModel, Mul, IsOrder, Placed, HasRows;
    OrderCovers(order, |texts|);
    var batch: seq<string> := [];
    for i := range.start to range.end
      invariant batch == InOrder(texts, order)[range.start..i]
    {
      batch := batch + [texts[order[i]]];
    }
    var pooled;
    ok, pooled, cells := RunAndPool(m, batch);
    done' := done;
    if ok {
      ghost var rows := BatchVectors(m, batch).value;
      Scatter(result, order, range.start, pooled, |batch|, m.dim, |texts|, done, rows);
      done' := done + rows;
      assert Map(TokenCount(m.tok), batch) == Map(TokenCount(m.tok), InOrder(texts, order))[range.start..range.end];
    }
  }

  lemma NoCells(s: seq<nat>, b: nat)
    requires b > 0 && s == []
    ensures Cells(s, b) == 0
  {
  }

  lemma {:induction false} NextChunk(lengths: seq<nat>, b: nat, start: nat, end: nat)
    requires b > 0 && start < |lengths| && end == if start + b < |lengths| then start + b else |lengths|
    ensures Cells(lengths[start..], b) == Mul(end - start, MaxOf(lengths[start..end])) + Cells(lengths[end..], b)
  {
    CellsStep(lengths[start..], b);
    var m := ChunkSize(lengths[start..], b);
    assert m == end - start;
    assert lengths[start..][..m] == lengths[start..end] && lengths[start..][m..] == lengths[end..];
  }
}
