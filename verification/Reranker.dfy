/** The ONNX branch of the reranker: batch, flatten, run, scatter the scores, sort. */
module Reranker {
  import opened Sequences
  import opened Sorting
  import opened Batching
  import opened BatchRuns
  import opened Tokenizing
  import opened Status

  /** First tensor of a session run: flat data and the size of its last dimension. */
  datatype Output = Output(data: seq<real>, lastDim: nat)

  datatype Item = Item(index: int, score: real)

  function ItemScore(item: Item): real { item.score }

  type Session = (seq<int>, seq<int>, seq<int>, nat, nat) -> Option<Output>

  predicate InBounds(o: Output, row: nat) { row * o.lastDim < |o.data| }

  function RowScore(o: Output, row: nat): real
    requires InBounds(o, row)
  {
    o.data[row * o.lastDim]
  }

  /** Encoding and running one batch; None when either throws. */
  function RunBatch(tok: Tokenizer, run: Session, texts: seq<string>): Option<Output> {
    var e := EncodeBatch(tok, texts);
    if Encodes(tok, texts) then
      run(Flatten(e.ids), Flatten(e.mask), Zeros(|texts| * e.seqLen), |texts|, e.seqLen)
    else None
  }

  /** What one batch comes to: the session runs on the tokens of its texts, laid out row by row, unless some text cannot
      be encoded. */
  lemma {:induction false} RunBatchIs(tok: Tokenizer, run: Session, texts: seq<string>, rows: seq<seq<int>>,
                                      ids: seq<int>, mask: seq<int>, types: seq<int>, len: nat)
    requires |rows| == |texts| && SentAs(rows, tok.padId, ids, mask, types, len)
    requires forall i :: 0 <= i < |rows| ==> IsCut(rows[i], tok.encodeSingle(texts[i]), tok.maxLength)
    ensures RunBatch(tok, run, texts)
         == if exists t :: t in texts && tok.throws(t) then None else run(ids, mask, types, |texts|, len)
  {
    hide SentAs, EncodeBatch;
    SentIsEncoded(tok, texts, rows, ids, mask, types, len);
  }

  /** A session that returns at all returns one row of scores per text of the batch. */
  ghost predicate ValidSession(tok: Tokenizer, run: Session) {
    forall texts, i :: 0 <= i < |texts| && RunBatch(tok, run, texts).Some? ==>
      InBounds(RunBatch(tok, run, texts).value, i)
  }

  /** Running the session on rows of tokens as the batch loop lays them out. */
  function RunPadded(tok: Tokenizer, run: Session, rows: seq<seq<int>>): Option<Output> {
    var e := Padded(rows, tok.padId);
    run(Flatten(e.ids), Flatten(e.mask), Zeros(|rows| * e.seqLen), |rows|, e.seqLen)
  }

  /** The session's score of a row of tokens, the first of its output values, is a function of that row, not of its
      padding or the rest of the batch. */
  ghost predicate PaddingIndependent(tok: Tokenizer, run: Session, score: seq<int> -> real) {
    forall rows: seq<seq<int>>, ids: seq<int>, mask: seq<int>, types: seq<int>, len: nat, i: nat ::
      SentAs(rows, tok.padId, ids, mask, types, len) && i < |rows| && run(ids, mask, types, |rows|, len).Some? ==>
        var o := run(ids, mask, types, |rows|, len).value;
        i * o.lastDim < |o.data| ==> o.data[i * o.lastDim] == score(rows[i])
  }

  lemma {:induction false} PaddedRowScore(tok: Tokenizer, run: Session, score: seq<int> -> real, rows: seq<seq<int>>,
                                          i: nat)
    requires PaddingIndependent(tok, run, score) && i < |rows| && RunPadded(tok, run, rows).Some?
    requires InBounds(RunPadded(tok, run, rows).value, i)
    ensures RowScore(RunPadded(tok, run, rows).value, i) == score(rows[i])
  {
    PaddedIsSent(rows, tok.padId);
    hide SentAs, Padded, Flatten;
  }

  function PairText(query: string, document: string): string { query + " [SEP] " + document }

  function PairTexts(query: string, documents: seq<string>): (r: seq<string>)
    ensures |r| == |documents|
  {
    Map(d => PairText(query, d), documents)
  }

  /** The scores a run gives the n texts of its batch. */
  function BatchScores(o: Output, n: nat): (r: seq<real>)
    requires forall i :: 0 <= i < n ==> InBounds(o, i)
    ensures |r| == n
  {
    seq(n, i requires 0 <= i < n => RowScore(o, i))
  }

  /** Scores of one batch of documents; None when its encoding or its run throws. */
  ghost function BatchOutcome(tok: Tokenizer, run: Session, query: string, documents: seq<string>):
    (r: Option<seq<real>>)
    requires ValidSession(tok, run)
    ensures r.Some? ==> |r.value| == |documents|
  {
    var texts := PairTexts(query, documents);
    match RunBatch(tok, run, texts)
    case None => None
    case Some(o) => Some(BatchScores(o, |texts|))
  }

  ghost function Outcome(tok: Tokenizer, run: Session, query: string): (f: seq<string> -> Option<seq<real>>)
    requires ValidSession(tok, run)
    ensures OnePerItem(f)
  {
    (documents: seq<string>) => BatchOutcome(tok, run, query, documents)
  }

  lemma OutcomeOf(tok: Tokenizer, run: Session, query: string, documents: seq<string>)
    requires ValidSession(tok, run)
    ensures Outcome(tok, run, query)(documents) == BatchOutcome(tok, run, query, documents)
  {
  }

  /** Scores of all documents, b at a time; None when some batch throws. */
  ghost function AllScores(tok: Tokenizer, run: Session, query: string, documents: seq<string>, b: nat):
    (r: Option<seq<real>>)
    requires b > 0 && ValidSession(tok, run)
    ensures r.Some? ==> |r.value| == |documents|
  {
    InBatches(Outcome(tok, run, query), documents, b, 0)
  }

  function DocumentScore(tok: Tokenizer, score: seq<int> -> real, query: string, document: string): real {
    score(Truncated(tok.encodeSingle(PairText(query, document)), tok.maxLength))
  }

  lemma {:induction false} BatchRowScore(tok: Tokenizer, run: Session, score: seq<int> -> real, texts: seq<string>,
                                         i: nat)
    requires ValidSession(tok, run) && PaddingIndependent(tok, run, score) && i < |texts|
    requires RunBatch(tok, run, texts).Some?
    ensures RowScore(RunBatch(tok, run, texts).value, i)
         == score(Truncated(tok.encodeSingle(texts[i]), tok.maxLength))
  {
    EncodedIsPadded(tok, texts);
    hide EncodeBatch, Padded, Flatten;
    assert RunPadded(tok, run, TokenRows(tok, texts)) == RunBatch(tok, run, texts);
    PaddedRowScore(tok, run, score, TokenRows(tok, texts), i);
  }

  function ScoreOf(tok: Tokenizer, score: seq<int> -> real, query: string): string -> real {
    (document: string) => DocumentScore(tok, score, query, document)
  }

  lemma {:induction false} ScoresAreItemWise(tok: Tokenizer, run: Session, score: seq<int> -> real, query: string)
    requires ValidSession(tok, run) && PaddingIndependent(tok, run, score)
    ensures ItemWise(Outcome(tok, run, query), ScoreOf(tok, score, query))
  {
    var f := Outcome(tok, run, query);
    forall documents: seq<string>, i | 0 <= i < |documents| && f(documents).Some?
      ensures f(documents).value[i] == ScoreOf(tok, score, query)(documents[i])
    {
      BatchRowScore(tok, run, score, PairTexts(query, documents), i);
    }
  }

  /** With a padding-independent scorer every document gets the score of its own pair, whatever the batch size. */
  lemma {:induction false} ScoresAreIndependentOfBatching(tok: Tokenizer, run: Session, score: seq<int> -> real,
                                                          query: string, documents: seq<string>, b: nat)
    requires b > 0 && ValidSession(tok, run) && PaddingIndependent(tok, run, score)
    requires AllScores(tok, run, query, documents, b).Some?
    ensures AllScores(tok, run, query, documents, b).value == Map(ScoreOf(tok, score, query), documents)
  {
    hide Outcome, ScoreOf, PaddingIndependent, ValidSession;
    ScoresAreItemWise(tok, run, score, query);
    InBatchesIsMap(Outcome(tok, run, query), ScoreOf(tok, score, query), documents, b);
  }

  /** Two batch sizes give the same scores, as long as no batch throws. */
  lemma {:induction false} BatchSizeDoesNotMatter(tok: Tokenizer, run: Session, score: seq<int> -> real,
                                                  query: string, documents: seq<string>, b: nat, b': nat)
    requires b > 0 && b' > 0 && ValidSession(tok, run) && PaddingIndependent(tok, run, score)
    requires AllScores(tok, run, query, documents, b).Some? && AllScores(tok, run, query, documents, b').Some?
    ensures AllScores(tok, run, query, documents, b) == AllScores(tok, run, query, documents, b')
  {
    hide AllScores, ScoreOf, ValidSession, PaddingIndependent;
    ScoresAreIndependentOfBatching(tok, run, score, query, documents, b);
    ScoresAreIndependentOfBatching(tok, run, score, query, documents, b');
  }

  /** One (index, score) pair per document, in document order. */
  function Pairs(scores: seq<real>): (r: seq<Item>)
    ensures |r| == |scores|
  {
    seq(|scores|, i requires 0 <= i < |scores| => Item(i, scores[i]))
  }

  /** A permutation of the pairs has pairwise distinct indices, all of them document indices. */
  lemma {:induction false} PermutedPairsAreDistinct(items: seq<Item>, scores: seq<real>)
    requires multiset(items) == multiset(Pairs(scores))
    ensures |items| == |scores|
    ensures forall i :: 0 <= i < |items| ==> 0 <= items[i].index < |scores| && items[i].score == scores[items[i].index]
    ensures forall i, j :: 0 <= i < j < |items| ==> items[i].index != items[j].index
  {
    PermutationLength(items, Pairs(scores));
    PermutationMembers(items, Pairs(scores));
    forall i | 0 <= i < |items|
      ensures 0 <= items[i].index < |scores| && items[i].score == scores[items[i].index]
    {
      assert items[i] in Pairs(scores);
    }
    forall i, j | 0 <= i < j < |items| ensures items[i].index != items[j].index {
      if items[i].index == items[j].index {
        assert items[i] == items[j];
        OccursTwice(items, i, j);
        PairsOccurOnce(scores, items[i]);
      }
    }
  }

  lemma {:induction false} OccursTwice(items: seq<Item>, i: nat, j: nat)
    requires i < j < |items| && items[i] == items[j]
    ensures multiset(items)[items[i]] >= 2
  {
    assert items == items[..j] + [items[j]] + items[j + 1..];
    assert items[i] in items[..j];
  }

  lemma PairsOccurOnce(scores: seq<real>, item: Item)
    ensures multiset(Pairs(scores))[item] <= 1
  {
    if scores != [] {
      var front := scores[..|scores| - 1];
      PairsOccurOnce(front, item);
      assert Pairs(scores) == Pairs(front) + [Item(|front|, scores[|front|])];
      assert item in Pairs(front) ==> item.index < |front|;
    }
  }

  /** The query, the separator and the document, in this order. */
  predicate IsPair(text: string, query: string, document: string) {
    && |text| == |query| + 7 + |document|
    && text[..|query|] == query && text[|query|..|query| + 7] == " [SEP] " && text[|query| + 7..] == document
  }

  lemma {:induction false} OnlyPair(text: string, query: string, document: string)
    ensures IsPair(text, query, document) <==> text == PairText(query, document)
  {
    if IsPair(text, query, document) {
      assert text == text[..|query|] + text[|query|..|query| + 7] + text[|query| + 7..];
    }
  }

  /** The scores exist exactly when the session returns on every batch of pairs, which takes that they all encode. */
  lemma {:induction false} ScoresExistIff(tok: Tokenizer, run: Session, query: string, documents: seq<string>, b: nat)
    requires b > 0 && ValidSession(tok, run)
    ensures AllScores(tok, run, query, documents, b).Some?
       <==> forall j: nat :: j * b < |documents| ==>
              RunBatch(tok, run, PairTexts(query, BatchAt(documents, b, 0, j))).Some?
    ensures AllScores(tok, run, query, documents, b).Some? ==>
      forall i, text :: 0 <= i < |documents| && IsPair(text, query, documents[i]) ==> !tok.throws(text)
  {
    var f := Outcome(tok, run, query);
    InBatchesSucceedsIff(f, documents, b, 0);
    hide Outcome, InBatches, ValidSession, OnePerItem;
    forall j: nat | j * b < |documents|
      ensures f(BatchAt(documents, b, 0, j)).Some?
         <==> RunBatch(tok, run, PairTexts(query, BatchAt(documents, b, 0, j))).Some?
    {
      OutcomeOf(tok, run, query, BatchAt(documents, b, 0, j));
    }
    if InBatches(f, documents, b, 0).Some? {
      forall i, text | 0 <= i < |documents| && IsPair(text, query, documents[i]) ensures !tok.throws(text) {
        OnlyPair(text, query, documents[i]);
        PairEncodes(tok, run, query, documents, b, i);
      }
    }
  }

  lemma {:induction false} PairEncodes(tok: Tokenizer, run: Session, query: string, documents: seq<string>, b: nat,
                                       i: nat)
    requires b > 0 && i < |documents|
    requires forall j: nat :: j * b < |documents| ==>
      RunBatch(tok, run, PairTexts(query, BatchAt(documents, b, 0, j))).Some?
    ensures !tok.throws(PairText(query, documents[i]))
  {
    var j := Times(i, b);
    var batch := BatchAt(documents, b, 0, j);
    assert batch[i - j * b] == documents[i];
    assert PairTexts(query, batch)[i - j * b] in PairTexts(query, batch);
  }

  /** Every ranked item carries the score of its own pair: of the text that is the query, the separator and the item's
      document in this order, encoded on its own and cut at the maximum length. */
  lemma {:induction false} RankedByOwnPair(tok: Tokenizer, run: Session, score: seq<int> -> real, query: string,
                                           documents: seq<string>, b: nat, items: seq<Item>, i: nat)
    returns (text: string, tokens: seq<int>)
    requires b > 0 && ValidSession(tok, run) && PaddingIndependent(tok, run, score)
    requires AllScores(tok, run, query, documents, b).Some?
    requires multiset(items) == multiset(Pairs(AllScores(tok, run, query, documents, b).value)) && i < |items|
    ensures 0 <= items[i].index < |documents|
    ensures |text| == |query| + 7 + |documents[items[i].index]|
    ensures text[..|query|] == query && text[|query|..|query| + 7] == " [SEP] "
    ensures text[|query| + 7..] == documents[items[i].index]
    ensures IsCut(tokens, tok.encodeSingle(text), tok.maxLength) && items[i].score == score(tokens)
  {
    hide AllScores, ValidSession, PaddingIndependent;
    var scores := AllScores(tok, run, query, documents, b).value;
    ScoresAreIndependentOfBatching(tok, run, score, query, documents, b);
    PermutedPairsAreDistinct(items, scores);
    text := PairText(query, documents[items[i].index]);
    tokens := Truncated(tok.encodeSingle(text), tok.maxLength);
  }

  /** Scatters the scores of one batch to the documents' positions. */
  method ScatterScores(scores: array<real>, start: nat, o: Output, n: nat)
    requires start + n <= scores.Length && forall i :: 0 <= i < n ==> InBounds(o, i)
    modifies scores
    ensures scores[..start + n] == old(scores[..start]) + BatchScores(o, n)
  {
    for i := 0 to n
      invariant scores[..start + i] == old(scores[..start]) + BatchScores(o, n)[..i]
    {
      assert InBounds(o, i);
      scores[start + i] := o.data[i * o.lastDim];
    }
  }

  method MakeItems(scores: array<real>) returns (items: array<Item>)
    ensures fresh(items) && items[..] == Pairs(scores[..])
  {
    items := new Item[scores.Length];
    for i := 0 to scores.Length
      invariant items[..i] == Pairs(scores[..])[..i]
    {
      items[i] := Item(i, scores[i]);
    }
  }

  class Context {
    const tok: Tokenizer
    const run: Session
    const batchSize: nat
    var textsEmbedded: nat
    var batchesRun: nat
    var statsCalls: nat

    ghost predicate Valid() {
      batchSize > 0 && ValidSession(tok, run)
    }

    constructor (tok: Tokenizer, run: Session, batchSize: nat)
      requires batchSize > 0 && ValidSession(tok, run)
      ensures Valid() && this.tok == tok && this.run == run && this.batchSize == batchSize
      ensures textsEmbedded == batchesRun == statsCalls == 0
    {
      this.tok, this.run, this.batchSize := tok, run, batchSize;
      textsEmbedded, batchesRun, statsCalls := 0, 0, 0;
    }

    /** The batch size a call uses: its own, or the context's when it gives none. */
    function EffectiveBatch(requested: int): (b: int) {
      if requested <= 0 then batchSize else requested
    }

    ghost function Scores(query: string, documents: seq<string>, requested: int): Option<seq<real>>
      requires Valid()
    {
      AllScores(tok, run, query, documents, EffectiveBatch(requested))
    }

    /** Scores every document, batch by batch; `ok` is false when a batch throws. */
    method ScoreAll(query: string, documents: seq<string>, b: nat) returns (ok: bool, scores: array<real>)
      requires Valid() && documents != [] && b > 0
      ensures ok <==> AllScores(tok, run, query, documents, b).Some?
      ensures ok ==> scores[..] == AllScores(tok, run, query, documents, b).value
      ensures fresh(scores)
    {
      hide Outcome, OnePerItem, InBatches, BatchOutcome, ValidSession;
      var n := |documents|;
      ghost var f := Outcome(tok, run, query);
      scores := new real[n];
      NothingDone(InBatches(f, documents, b, 0));
      assert scores[..0] == [];
      var count := CountBatches(n, b);
      for bi := 0 to count
        invariant AllScores(tok, run, query, documents, b)
               == Prepend(scores[..StartOf(n, b, bi)], InBatches(f, documents, b, StartOf(n, b, bi)))
      {
        var range := RangeOf(bi, n, b);
        NextBatch(f, documents, b, range.start, scores[..range.start]);
        OutcomeOf(tok, run, query, documents[range.start..range.end]);
        ok := ScoreBatch(query, documents, range, scores);
        if !ok {
          return false, scores;
        }
      }
      AllDone(f, documents, b, scores[..n]);
      assert scores[..n] == scores[..];
      return true, scores;
    }

    /** Scores one batch in place. */
    method ScoreBatch(query: string, documents: seq<string>, range: BatchRange, scores: array<real>)
      returns (ok: bool)
      requires Valid() && |documents| == scores.Length && 0 <= range.start <= range.end <= |documents|
      modifies scores
      ensures ok <==> BatchOutcome(tok, run, query, documents[range.start..range.end]).Some?
      ensures ok ==>
        scores[..range.end]
        == old(scores[..range.start]) + BatchOutcome(tok, run, query, documents[range.start..range.end]).value
    {
      hide RunBatch;
      var texts := PairTexts(query, documents[range.start..range.end]);
      var out := RunOn(texts);
      if out.None? {
        return false;
      }
      assert forall i :: 0 <= i < |texts| ==> InBounds(out.value, i);
      ScatterScores(scores, range.start, out.value, |texts|);
      return true;
    }

    /** Encodes, flattens and runs one batch. */
    method RunOn(texts: seq<string>) returns (out: Option<Output>)
      ensures out == RunBatch(tok, run, texts)
    {
      if !Encodes(tok, texts) {
        return None;
      }
      var enc := EncodeBatch(tok, texts);
      var ids, mask := FlattenBatch(enc);
      out := run(ids[..], mask[..], Zeros(|texts| * enc.seqLen), |texts|, enc.seqLen);
    }

    /** Ranks the documents: on success the items are all the (index, score) pairs in descending score order;
        a throwing run leaves the statistics alone. */
    method Rerank(query: string, documents: seq<string>, requested: int)
      returns (status: Status, items: array?<Item>)
      requires Valid()
      modifies this
      ensures Valid()
      ensures status == if documents == [] then InvalidArgument
                        else if Scores(query, documents, requested).Some? then Ok else OnnxRuntimeError
      ensures status == Ok ==> items != null && fresh(items) && SortedDesc(items[..], ItemScore)
      ensures status == Ok ==> forall i, j :: 0 <= i < j < items.Length ==> items[i].score >= items[j].score
      ensures status == Ok ==>
        multiset(items[..]) == multiset(Pairs(Scores(query, documents, requested).value))
      ensures status == Ok ==>
        && textsEmbedded == old(textsEmbedded) + |documents|
        && batchesRun == old(batchesRun) + BatchCount(|documents|, if requested <= 0 then batchSize else requested)
        && statsCalls == old(statsCalls) + 1
      ensures status != Ok ==> items == null && unchanged(this)
    {
      if documents == [] {
        return InvalidArgument, null;
      }
      var b := if requested <= 0 then batchSize else requested;
      var ok, scores := ScoreAll(query, documents, b);
      if !ok {
        return OnnxRuntimeError, null;
      }
      var ranked := MakeItems(scores);
      SortInPlace(ranked, ItemScore);
      textsEmbedded := textsEmbedded + |documents|;
      batchesRun := batchesRun + BatchCount(|documents|, b);
      statsCalls := statsCalls + 1;
      return Ok, ranked;
    }
  }
}
