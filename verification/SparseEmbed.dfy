/** Sparse text embedding: encode, run and postprocess batch by batch, copying every text's vector into buffers of its
    own; a run that throws releases what was allocated so far. */
module SparseEmbed {
  import opened Sequences
  import opened Batching
  import opened BatchRuns
  import opened Tokenizing
  import opened Splade
  import opened SparseHeap
  import SparseOptions
  import opened Status
  import opened TokenTensor

  /** First tensor of a session run: the logits, token after token, and the vocabulary size. */
  datatype Tensor = Tensor(data: seq<real>, vocab: nat)

  type Session = (seq<int>, seq<int>, seq<int>, nat, nat) -> Option<Tensor>

  /** The tokenizer, the session and the postprocessing, each of which may throw. */
  datatype Model = Model(tok: Tokenizer, run: Session, postThrows: Tensor -> bool, log1p: real -> real)

  /** Encoding and running one batch; None when either throws. */
  function RunBatch(m: Model, texts: seq<string>): Option<Tensor> {
    var e := EncodeBatch(m.tok, texts);
    if Encodes(m.tok, texts) then
      m.run(Flatten(e.ids), Flatten(e.mask), Zeros(|texts| * e.seqLen), |texts|, e.seqLen)
    else None
  }

  /** What one batch comes to: the session runs on the tokens of its texts, laid out row by row, unless some text cannot
      be encoded. */
  lemma {:induction false} RunBatchIs(m: Model, texts: seq<string>, rows: seq<seq<int>>, ids: seq<int>, mask: seq<int>,
                                      types: seq<int>, len: nat)
    requires |rows| == |texts| && SentAs(rows, m.tok.padId, ids, mask, types, len)
    requires forall i :: 0 <= i < |rows| ==> IsCut(rows[i], m.tok.encodeSingle(texts[i]), m.tok.maxLength)
    ensures RunBatch(m, texts)
         == if exists t :: t in texts && m.tok.throws(t) then None else m.run(ids, mask, types, |texts|, len)
  {
    hide SentAs, EncodeBatch;
    SentIsEncoded(m.tok, texts, rows, ids, mask, types, len);
  }

  /** A session that returns at all returns the logits of every token of the batch. */
  ghost predicate ValidModel(m: Model) {
    forall texts :: RunBatch(m, texts).Some? ==>
      var t := RunBatch(m, texts).value;
      Shaped(t.data, Flatten(EncodeBatch(m.tok, texts).mask), t.vocab)
  }

  /** The sparse vectors of one batch; None when its encoding, its run or its postprocessing throws. */
  ghost function BatchResults(m: Model, texts: seq<string>): (r: Option<seq<SparseResult>>)
    requires ValidModel(m)
    ensures r.Some? ==> |r.value| == |texts|
  {
    match RunBatch(m, texts)
    case None => None
    case Some(t) =>
      var e := EncodeBatch(m.tok, texts);
      FlattenSize(e.mask, e.seqLen);
      if m.postThrows(t) then None
      else Some(Postprocessed(m.log1p, t.data, Flatten(e.mask), |texts|, e.seqLen, t.vocab))
  }

  ghost function Outcome(m: Model): (f: seq<string> -> Option<seq<SparseResult>>)
    requires ValidModel(m)
    ensures OnePerItem(f)
  {
    (texts: seq<string>) => BatchResults(m, texts)
  }

  lemma OutcomeOf(m: Model, texts: seq<string>)
    requires ValidModel(m)
    ensures Outcome(m)(texts) == BatchResults(m, texts)
  {
  }

  /** The sparse vectors of all texts, b at a time; None when some batch throws. */
  ghost function AllResults(m: Model, texts: seq<string>, b: nat): (r: Option<seq<SparseResult>>)
    requires b > 0 && ValidModel(m)
    ensures r.Some? ==> |r.value| == |texts|
  {
    InBatches(Outcome(m), texts, b, 0)
  }

  // ----- filling the result -----

  /** The cells of a result under construction: the first ones hold `done`, the others are still empty. */
  ghost predicate Filled(live: Live, cells: seq<Cell>, done: seq<SparseResult>) {
    && |done| <= |cells|
    && (forall k :: 0 <= k < |done| ==> Holds(live, cells[k], done[k]))
    && (forall k :: |done| <= k < |cells| ==> cells[k] == NULL_CELL)
  }

  /** A result under construction has `count` cells and owns its blocks, and apart from them the heap is as it was. */
  ghost predicate Building(before: Live, live: Live, items: nat, count: nat, done: seq<SparseResult>) {
    && items in live && live[items].Cells?
    && var cells := live[items].cells;
    && Owns(live, items, cells) && |cells| == count
    && live - Footprint(items, cells) == before
    && Filled(live, cells, done)
  }

  lemma {:induction false} CallocBuilds(before: Live, items: nat, count: nat)
    requires items != 0 && items !in before
    ensures Building(before, before[items := Cells(seq(count, _ => NULL_CELL))], items, count, [])
  {
    NothingOwned(seq(count, _ => NULL_CELL), 0);
  }

  /** The heap after the two buffers of one text are allocated and written. */
  ghost predicate Buffered(live: Live, live': Live, c: Cell, r: SparseResult) {
    && Pointers(c) !! live.Keys && (c.indices == c.values ==> c.indices == 0)
    && live'.Keys == live.Keys + Pointers(c)
    && (forall p :: p in live ==> live'[p] == live[p])
    && Holds(live', c, r)
  }

  /** Hanging the new buffers into the next empty cell finishes one more text. */
  lemma {:induction false} CellBuilds(before: Live, live: Live, items: nat, count: nat, done: seq<SparseResult>,
                                      live': Live, c: Cell, r: SparseResult)
    requires Building(before, live, items, count, done) && |done| < count
    requires Buffered(live, live', c, r)
    ensures items in live' && live'[items].Cells? && |live'[items].cells| == count
    ensures Building(before, live'[items := Cells(live'[items].cells[|done| := c])], items, count, done + [r])
  {
    var cells := live[items].cells;
    assert live'[items] == live[items];
    FillCell(cells, 0, |done|, c);
  }

  /** Allocates and fills the two buffers of one text. */
  method MakeBuffers(heap: Heap, r: SparseResult) returns (c: Cell)
    requires |r.indices| == |r.values|
    modifies heap
    ensures Buffered(old(heap.live), heap.live, c, r)
  {
    var indices := heap.Malloc(|r.indices|);
    var values := heap.Malloc(|r.values|);
    if indices != 0 && values != 0 {
      heap.Store(indices, Ints(r.indices));
      heap.Store(values, Reals(r.values));
    }
    c := Cell(indices, values, |r.indices|);
  }

  method CopyText(heap: Heap, items: nat, idx: nat, r: SparseResult,
                  ghost before: Live, ghost count: nat, ghost done: seq<SparseResult>)
    requires Building(before, heap.live, items, count, done) && idx == |done| < count
    requires |r.indices| == |r.values|
    modifies heap
    ensures Building(before, heap.live, items, count, done + [r])
  {
    ghost var live := heap.live;
    hide Building;
    var c := MakeBuffers(heap, r);
    CellBuilds(before, live, items, count, done, heap.live, c, r);
    heap.Store(items, Cells(heap.live[items].cells[idx := c]));
  }

  // ----- the context -----

  class Context {
    const model: Model
    const batchSize: nat
    var textsEmbedded: nat
    var batchesRun: nat
    var statsCalls: nat

    ghost predicate Valid() {
      batchSize > 0 && ValidModel(model)
    }

    constructor (model: Model, batchSize: nat)
      requires batchSize > 0 && ValidModel(model)
      ensures Valid() && this.model == model && this.batchSize == batchSize
      ensures textsEmbedded == batchesRun == statsCalls == 0
    {
      this.model, this.batchSize := model, batchSize;
      textsEmbedded, batchesRun, statsCalls := 0, 0, 0;
    }

    /** The batch size a call uses: its own, or the context's when it gives none. */
    function EffectiveBatch(requested: int): (b: int) {
      if requested <= 0 then batchSize else requested
    }

    ghost function Results(texts: seq<string>, requested: int): Option<seq<SparseResult>>
      requires Valid()
    {
      AllResults(model, texts, EffectiveBatch(requested))
    }

    /** Encodes, flattens, runs and postprocesses one batch; `ok` is false when one of these throws. */
    method RunAndPostprocess(texts: seq<string>) returns (ok: bool, results: seq<SparseResult>)
      requires Valid()
      ensures BatchResults(model, texts) == if ok then Some(results) else None
    {
      var out, mask, len := RunOn(texts);
      if out.None? || model.postThrows(out.value) {
        return false, [];
      }
      FlattenSize(EncodeBatch(model.tok, texts).mask, len);
      hide EncodeBatch, Flatten, RunBatch, Postprocessed;
      results := SpladePostprocess(model.log1p, out.value.data, mask, |texts|, len, out.value.vocab);
      ok := true;
    }

    method RunOn(texts: seq<string>) returns (out: Option<Tensor>, mask: seq<int>, len: nat)
      ensures out == RunBatch(model, texts)
      ensures out.Some? ==>
        mask == Flatten(EncodeBatch(model.tok, texts).mask) && len == EncodeBatch(model.tok, texts).seqLen
    {
      if !Encodes(model.tok, texts) {
        return None, [], 0;
      }
      var enc := EncodeBatch(model.tok, texts);
      var ids, maskFlat := FlattenBatch(enc);
      mask, len := maskFlat[..], enc.seqLen;
      out := model.run(ids[..], mask, Zeros(|texts| * len), |texts|, len);
    }

    /** Copies the results of one batch into the next cells. */
    method CopyBatch(heap: Heap, items: nat, outOffset: nat, results: seq<SparseResult>,
                     ghost before: Live, ghost count: nat, ghost done: seq<SparseResult>)
      requires Building(before, heap.live, items, count, done)
      requires outOffset == |done| && outOffset + |results| <= count
      requires forall i :: 0 <= i < |results| ==> |results[i].indices| == |results[i].values|
      modifies heap
      ensures Building(before, heap.live, items, count, done + results)
    {
      hide Building;
      assert done + results[..0] == done;
      for i := 0 to |results|
        invariant Building(before, heap.live, items, count, done + results[..i])
      {
        assert done + results[..i + 1] == (done + results[..i]) + [results[i]];
        CopyText(heap, items, outOffset + i, results[i], before, count, done + results[..i]);
      }
      assert results[..|results|] == results;
    }

    /** One turn of the batch loop. */
    method EmbedBatch(heap: Heap, items: nat, texts: seq<string>, range: BatchRange,
                      ghost before: Live, ghost done: seq<SparseResult>)
      returns (ok: bool, ghost done': seq<SparseResult>)
      requires Valid() && Building(before, heap.live, items, |texts|, done)
      requires |done| == range.start <= range.end <= |texts|
      modifies heap
      ensures Building(before, heap.live, items, |texts|, done')
      ensures match BatchResults(model, texts[range.start..range.end])
              case None => !ok
              case Some(results) => ok && done' == done + results
    {
      hide Building, BatchResults;
      var results;
      ok, results := RunAndPostprocess(texts[range.start..range.end]);
      done' := done;
      if ok {
        PairedLengths(model, texts[range.start..range.end]);
        CopyBatch(heap, items, range.start, results, before, |texts|, done);
        done' := done + results;
      }
    }

    /** The batch loop; `done` is what the cells hold when it ends. */
    method FillAll(heap: Heap, items: nat, texts: seq<string>, b: nat, ghost before: Live)
      returns (ok: bool, ghost done: seq<SparseResult>)
      requires Valid() && b > 0 && texts != []
      requires Building(before, heap.live, items, |texts|, [])
      modifies heap
      ensures Building(before, heap.live, items, |texts|, done)
      ensures AllResults(model, texts, b) == if ok then Some(done) else None
    {
      hide Building, BatchResults, Outcome, OnePerItem, InBatches, ValidModel;
      var n := |texts|;
      ghost var f := Outcome(model);
      done := [];
      NothingDone(InBatches(f, texts, b, 0));
      var count := CountBatches(n, b);
      for bi := 0 to count
        invariant Building(before, heap.live, items, n, done)
        invariant |done| == StartOf(n, b, bi)
        invariant AllResults(model, texts, b) == Prepend(done, InBatches(f, texts, b, StartOf(n, b, bi)))
      {
        var range := RangeOf(bi, n, b);
        NextBatch(f, texts, b, range.start, done);
        OutcomeOf(model, texts[range.start..range.end]);
        ok, done := EmbedBatch(heap, items, texts, range, before, done);
        if !ok {
          return;
        }
      }
      AllDone(f, texts, b, done);
      ok := true;
    }

    /** Fills the result with one vector per text, in order, each in buffers of its own. When some batch throws, every
        block allocated so far is released and the result is empty. The options are never read: what is stored is
        the unpruned vector (SparseOptions.AsDocumentedIff says when that is the documented one). */
    method Embed(heap: Heap, texts: seq<string>, requested: int, options: Option<SparseOptions.Options>,
                 result: SparseEmbeddings)
      returns (status: Status)
      requires Valid()
      modifies this, heap, result
      ensures status == if texts == [] then InvalidArgument
                        else if Results(texts, requested).Some? then Ok else OnnxRuntimeError
      ensures status == InvalidArgument ==> unchanged(this, heap, result)
      ensures status == OnnxRuntimeError ==>
        unchanged(this) && heap.live == old(heap.live) && result.items == 0 && result.count == 0
      ensures status == Ok ==>
        && result.count == |texts|
        && Building(old(heap.live), heap.live, result.items, |texts|, Results(texts, requested).value)
      ensures status == Ok ==>
        && textsEmbedded == old(textsEmbedded) + |texts|
        && batchesRun == old(batchesRun) + BatchCount(|texts|, if requested <= 0 then batchSize else requested)
        && statsCalls == old(statsCalls) + 1
    {
      if texts == [] {
        return InvalidArgument;
      }
      var b := if requested <= 0 then batchSize else requested;
      ghost var before := heap.live;
      result.count := |texts|;
      result.items := heap.Calloc(|texts|);
      CallocBuilds(before, result.items, |texts|);
      hide Building;
      ghost var done;
      var ok;
      ok, done := FillAll(heap, result.items, texts, b, before);
      if !ok {
        ReleaseAll(heap, result, before, done);
        return OnnxRuntimeError;
      }
      textsEmbedded := textsEmbedded + |texts|;
      batchesRun := batchesRun + BatchCount(|texts|, b);
      statsCalls := statsCalls + 1;
      return Ok;
    }
  }

  lemma {:induction false} PairedLengths(m: Model, texts: seq<string>)
    requires ValidModel(m) && BatchResults(m, texts).Some?
    ensures forall i :: 0 <= i < |texts| ==>
      |BatchResults(m, texts).value[i].indices| == |BatchResults(m, texts).value[i].values|
  {
    var e, t := EncodeBatch(m.tok, texts), RunBatch(m, texts).value;
    FlattenSize(e.mask, e.seqLen);
    forall i | 0 <= i < |texts|
      ensures |BatchResults(m, texts).value[i].indices| == |BatchResults(m, texts).value[i].values|
    {
      PostprocessedAt(m.log1p, t.data, Flatten(e.mask), |texts|, e.seqLen, t.vocab, i);
    }
  }

  /** Releasing a result, finished or not, gives back the heap from before the call that made it. */
  method ReleaseAll(heap: Heap, result: SparseEmbeddings, ghost before: Live, ghost done: seq<SparseResult>)
    requires Building(before, heap.live, result.items, result.count, done)
    modifies heap, result
    ensures heap.live == before && result.items == 0 && result.count == 0
  {
    result.Free(heap);
  }

  // ----- the Python wrapper: embed, copy out, free -----

  /** Reads a result back from its cells. */
  method CopyOut(heap: Heap, result: SparseEmbeddings, ghost before: Live, ghost done: seq<SparseResult>)
    returns (embeddings: seq<SparseResult>)
    requires Building(before, heap.live, result.items, result.count, done) && |done| == result.count
    ensures embeddings == done
  {
    embeddings := [];
    for i := 0 to result.count
      invariant embeddings == done[..i]
    {
      var item := heap.live[result.items].cells[i];
      assert Holds(heap.live, item, done[i]);
      if item.length == 0 {
        assert done[i] == SparseResult([], []);
        embeddings := embeddings + [SparseResult([], [])];
      } else {
        embeddings := embeddings + [SparseResult(heap.live[item.indices].ints, heap.live[item.values].reals)];
      }
    }
  }

  /** The wrapper's call gives back every block it caused to be allocated, whether it returns the vectors or raises,
      and what it returns is what was computed. */
  method EmbedList(ctx: Context, heap: Heap, texts: seq<string>, batchSize: Option<int>)
    returns (embeddings: Option<seq<SparseResult>>)
    requires ctx.Valid()
    modifies ctx, heap
    ensures heap.live == old(heap.live)
    ensures embeddings == if texts == [] then Some([])
                          else ctx.Results(texts, if batchSize.None? then 0 else batchSize.value)
  {
    if texts == [] {
      return Some([]);
    }
    var requested := if batchSize.None? then 0 else batchSize.value;
    ghost var done := ctx.Results(texts, requested);
    ghost var before := heap.live;
    var result := new SparseEmbeddings();
    hide Building, AllResults;
    var status := ctx.Embed(heap, texts, requested, None, result);
    if status != Ok {
      return None;
    }
    var list := CopyOut(heap, result, before, done.value);
    ReleaseAll(heap, result, before, done.value);
    return Some(list);
  }

  /** Freeing twice is freeing once. */
  method FreeTwice(heap: Heap, result: SparseEmbeddings, ghost before: Live, ghost done: seq<SparseResult>)
    requires Building(before, heap.live, result.items, result.count, done)
    modifies heap, result
    ensures heap.live == before && result.items == 0 && result.count == 0
  {
    ReleaseAll(heap, result, before, done);
    result.Free(heap);
  }

  // ----- batching does not change the vectors -----

  /** Running the session on rows of tokens as the batch loop lays them out. */
  function RunPadded(m: Model, rows: seq<seq<int>>): Option<Tensor> {
    var e := Padded(rows, m.tok.padId);
    m.run(Flatten(e.ids), Flatten(e.mask), Zeros(|rows| * e.seqLen), |rows|, e.seqLen)
  }

  /** Text i of the tensor has these logits: one row for every token, token after token from place i * len on. */
  ghost predicate HasTextRows(t: Tensor, i: nat, len: nat, tokens: nat, rows: seq<seq<real>>) {
    |rows| == tokens && forall s :: 0 <= s < tokens ==> IsRowAt(t.data, i * len + s, t.vocab, rows[s])
  }

  /** What the session returns for the tokens of a text depends on those tokens alone, not on their padding or the
      rest of the batch. */
  ghost predicate PaddingIndependent(m: Model, logits: seq<int> -> seq<seq<real>>, vocab: nat) {
    forall rows: seq<seq<int>>, ids: seq<int>, mask: seq<int>, types: seq<int>, len: nat, i: nat ::
      SentAs(rows, m.tok.padId, ids, mask, types, len) && i < |rows|
      && Returns(m.run(ids, mask, types, |rows|, len), mask) ==>
        Shows(m.run(ids, mask, types, |rows|, len).value, vocab, i, len, |rows[i]|, logits(rows[i]))
  }

  ghost predicate Shows(t: Tensor, vocab: nat, i: nat, len: nat, tokens: nat, rows: seq<seq<real>>) {
    t.vocab == vocab && HasTextRows(t, i, len, tokens, rows)
  }

  /** The session returned logits for every token of the batch. */
  ghost predicate Returns(out: Option<Tensor>, mask: seq<int>) { out.Some? && FitsMask(out.value, mask) }

  ghost predicate FitsMask(t: Tensor, mask: seq<int>) { Shaped(t.data, mask, t.vocab) }

  lemma {:induction false} ShownOfText(t: Tensor, ids: seq<int>, mask: seq<int>, len: nat, i: nat, row: seq<int>,
                                       padId: int, rows: seq<seq<real>>)
    requires FitsMask(t, mask) && (i + 1) * len <= |mask| && HoldsRow(ids, mask, i * len, len, row, padId)
    requires HasTextRows(t, i, len, |row|, rows)
    ensures ShownRows(t, mask, i, len) == rows
  {
    MaskOfRow(ids, mask, i * len, len, row, padId);
    assert |rows| <= len;
    hide HoldsRow, TokenRow, IsRowAt, VisibleRows;
    forall s | 0 <= s < |rows| ensures TokenRow(t.data, i * len + s, t.vocab) == rows[s] {
      RowOfPlace(t.data, i * len + s, t.vocab, rows[s]);
    }
    ShownPrefix(t.data, mask, i * len, len, t.vocab, rows);
  }

  lemma RowsOfSent(m: Model, logits: seq<int> -> seq<seq<real>>, vocab: nat, rows: seq<seq<int>>, ids: seq<int>,
                   mask: seq<int>, types: seq<int>, len: nat, i: nat)
    requires PaddingIndependent(m, logits, vocab) && SentAs(rows, m.tok.padId, ids, mask, types, len) && i < |rows|
    requires Returns(m.run(ids, mask, types, |rows|, len), mask)
    ensures Shows(m.run(ids, mask, types, |rows|, len).value, vocab, i, len, |rows[i]|, logits(rows[i]))
  {
    hide Shows, FitsMask, SentAs;
  }

  /** What the mask shows of text i of a batch is computed from that text's tokens. */
  lemma {:induction false} PaddedRowsShown(m: Model, logits: seq<int> -> seq<seq<real>>, vocab: nat,
                                           rows: seq<seq<int>>, i: nat)
    requires PaddingIndependent(m, logits, vocab) && i < |rows| && RunPadded(m, rows).Some?
    requires FitsMask(RunPadded(m, rows).value, Flatten(Padded(rows, m.tok.padId).mask))
    requires (i + 1) * Padded(rows, m.tok.padId).seqLen <= |Flatten(Padded(rows, m.tok.padId).mask)|
    ensures RunPadded(m, rows).value.vocab == vocab
    ensures var e := Padded(rows, m.tok.padId);
      ShownRows(RunPadded(m, rows).value, Flatten(e.mask), i, e.seqLen) == logits(rows[i])
  {
    var e, t := Padded(rows, m.tok.padId), RunPadded(m, rows).value;
    PaddedIsSent(rows, m.tok.padId);
    SentRow(rows, m.tok.padId, Flatten(e.ids), Flatten(e.mask), Zeros(|rows| * e.seqLen), e.seqLen, i);
    hide SentAs, Padded, Flatten, HoldsRow, HasTextRows, FitsMask, ShownRows, PaddingIndependent, Zeros;
    RowsOfSent(m, logits, vocab, rows, Flatten(e.ids), Flatten(e.mask), Zeros(|rows| * e.seqLen), e.seqLen, i);
    ShownOfText(t, Flatten(e.ids), Flatten(e.mask), e.seqLen, i, rows[i], m.tok.padId, logits(rows[i]));
  }

  /** The visible rows of text i of a batch of padded length len. */
  ghost function ShownRows(t: Tensor, mask: seq<int>, i: nat, len: nat): seq<seq<real>>
    requires Shaped(t.data, mask, t.vocab) && (i + 1) * len <= |mask|
  {
    assert (i + 1) * len == i * len + len;
    VisibleRows(t.data, mask, i * len, len, t.vocab)
  }

  ghost predicate WideLogits(logits: seq<int> -> seq<seq<real>>, vocab: nat) {
    forall ids :: Wide(logits(ids), vocab)
  }

  /** The sparse vector of one text on its own. */
  ghost function TextVector(m: Model, logits: seq<int> -> seq<seq<real>>, vocab: nat, text: string): SparseResult
    requires WideLogits(logits, vocab)
  {
    TextResult(m.log1p, logits(Truncated(m.tok.encodeSingle(text), m.tok.maxLength)), vocab)
  }

  /** The vector of a text: its tokens are cut at the maximum length, and of the logits that the model computes for them
      the positive ones are stored, entry by entry the largest. */
  lemma {:induction false} VectorOfText(m: Model, logits: seq<int> -> seq<seq<real>>, vocab: nat, text: string,
                                        tokens: seq<int>, v: nat)
    requires WideLogits(logits, vocab) && IsLog1p(m.log1p) && v < vocab
    requires IsCut(tokens, m.tok.encodeSingle(text), m.tok.maxLength)
    ensures var r, rows := TextVector(m, logits, vocab, text), logits(tokens);
      && Ascending(r.indices) && |r.indices| == |r.values| && Wide(rows, vocab)
      && (v in r.indices <==> exists i :: 0 <= i < |rows| && rows[i][v] > 0.0)
      && forall k :: 0 <= k < |r.indices| && r.indices[k] == v ==>
           && (exists i :: 0 <= i < |rows| && rows[i][v] > 0.0 && r.values[k] == m.log1p(rows[i][v]))
           && forall i :: 0 <= i < |rows| && rows[i][v] > 0.0 ==> m.log1p(rows[i][v]) <= r.values[k]
  {
    TruncatedIsCut(tokens, m.tok.encodeSingle(text), m.tok.maxLength);
    EntryOfRows(m.log1p, logits(tokens), vocab, v);
    hide TextResult, Ascending;
  }

  ghost function VectorOf(m: Model, logits: seq<int> -> seq<seq<real>>, vocab: nat): string -> SparseResult
    requires WideLogits(logits, vocab)
  {
    (text: string) => TextVector(m, logits, vocab, text)
  }

  lemma {:induction false} BatchResultAt(m: Model, logits: seq<int> -> seq<seq<real>>, vocab: nat, texts: seq<string>,
                                         i: nat)
    requires ValidModel(m) && PaddingIndependent(m, logits, vocab) && WideLogits(logits, vocab)
    requires BatchResults(m, texts).Some? && i < |texts|
    ensures BatchResults(m, texts).value[i] == TextVector(m, logits, vocab, texts[i])
  {
    var e, t := EncodeBatch(m.tok, texts), RunBatch(m, texts).value;
    FlattenRows(e.mask, e.seqLen, i);
    EncodedIsPadded(m.tok, texts);
    PostprocessedAt(m.log1p, t.data, Flatten(e.mask), |texts|, e.seqLen, t.vocab, i);
    hide EncodeBatch, Padded, Flatten;
    assert RunPadded(m, TokenRows(m.tok, texts)) == Some(t);
    PaddedRowsShown(m, logits, vocab, TokenRows(m.tok, texts), i);
  }

  lemma {:induction false} VectorsAreItemWise(m: Model, logits: seq<int> -> seq<seq<real>>, vocab: nat)
    requires ValidModel(m) && PaddingIndependent(m, logits, vocab) && WideLogits(logits, vocab)
    ensures ItemWise(Outcome(m), VectorOf(m, logits, vocab))
  {
    hide BatchResults, PaddingIndependent, TextVector;
    forall texts: seq<string>, i | 0 <= i < |texts| && Outcome(m)(texts).Some?
      ensures Outcome(m)(texts).value[i] == VectorOf(m, logits, vocab)(texts[i])
    {
      BatchResultAt(m, logits, vocab, texts, i);
    }
  }

  /** With a padding-independent session every text gets its own vector, whatever the batch size. */
  lemma {:induction false} VectorsAreIndependentOfBatching(m: Model, logits: seq<int> -> seq<seq<real>>, vocab: nat,
                                                           texts: seq<string>, b: nat)
    requires ValidModel(m) && PaddingIndependent(m, logits, vocab) && WideLogits(logits, vocab)
    requires b > 0 && AllResults(m, texts, b).Some?
    ensures AllResults(m, texts, b).value == Map(VectorOf(m, logits, vocab), texts)
  {
    hide Outcome, VectorOf, PaddingIndependent, ValidModel, WideLogits;
    VectorsAreItemWise(m, logits, vocab);
    InBatchesIsMap(Outcome(m), VectorOf(m, logits, vocab), texts, b);
  }
}
