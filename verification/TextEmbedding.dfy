/** The dense embedding call of the library's context: checks, batch size, the batch loop, statistics. */
module TextEmbedding {
  import opened Arithmetic
  import opened Batching
  import opened OnnxBatching
  import opened Pooling
  import opened Sequences
  import opened Status
  import opened Tokenizing

  /** What a context is configured with: batch order, dynamic quantisation of the model, default batch size. */
  datatype Settings = Settings(strategy: Strategy, dynamic: bool, batchSize: nat)

  /** The batch size of a call on n texts; None when dynamic quantisation forbids the requested one. */
  function CallBatch(s: Settings, n: nat, requested: int): (b: Option<nat>)
    ensures s.batchSize > 0 && n > 0 && b.Some? ==> b.value > 0
  {
    if s.dynamic then if 0 < requested < n then None else Some(n)
    else if requested <= 0 then Some(s.batchSize) else Some(requested)
  }

  /** Whether embedding the texts in this order, b at a time, throws nowhere. */
  ghost predicate Succeeds(m: Model, strategy: Strategy, texts: seq<string>, order: seq<nat>, b: nat)
    requires ValidModel(m) && IsOrder(order, |texts|) && b > 0
  {
    && (Sorts(strategy, texts) ==> Encodes(m.tok, texts))
    && AllVectors(m, texts, order, BatchSize(strategy, b)).Some?
  }

  lemma {:induction false} SumBelowProduct(n: nat, b: nat)
    requires n > 1 && b > 1
    ensures n + b - 1 < n * b
  {
    Product(2, n, b - 1);
    assert n * (b - 1) == n * b - n;
  }

  lemma {:induction false} QuotientBelow(total: nat, b: nat, n: nat)
    requires b > 0 && total < n * b
    ensures total / b < n
  {
    DivideBounds(total, b);
    if total / b >= n {
      Product(n, total / b, b);
    }
  }

  lemma OneBatch(b: nat)
    requires b > 0
    ensures BatchCount(1, b) == 1
  {
  }

  /** A call counts batches of its own size; it runs single texts under the sequential strategy. The two agree exactly
      when it is not sequential or single texts are its batches. */
  lemma {:induction false} CountsItsRunsIff(strategy: Strategy, n: nat, b: nat)
    requires n > 0 && b > 0
    ensures BatchCount(n, b) == BatchCount(n, BatchSize(strategy, b)) <==> !strategy.Sequential? || b == 1 || n == 1
  {
    if strategy.Sequential? && n > 1 && b > 1 {
      SumBelowProduct(n, b);
      QuotientBelow(n + b - 1, b, n);
    } else if n == 1 {
      OneBatch(b);
    }
  }

  class Context {
    const m: Model
    const settings: Settings
    var textsEmbedded: nat
    var batchesRun: nat
    var statsCalls: nat

    ghost predicate Valid() {
      ValidModel(m) && settings.batchSize > 0
    }

    constructor (m: Model, settings: Settings)
      requires ValidModel(m) && settings.batchSize > 0
      ensures Valid() && this.m == m && this.settings == settings
      ensures textsEmbedded == batchesRun == statsCalls == 0
    {
      this.m, this.settings := m, settings;
      textsEmbedded, batchesRun, statsCalls := 0, 0, 0;
    }

    /** Runs the batch loop into a new buffer. */
    method EmbedInto(texts: seq<string>, b: nat)
      returns (ok: bool, data: array<real>, ghost order: seq<nat>, ghost runs: nat)
      requires ValidModel(m) && texts != [] && b > 0
      ensures fresh(data) && data.Length == Mul(|texts|, m.dim) && IsOrder(order, |texts|)
      ensures ok <==> Succeeds(m, settings.strategy, texts, order, b)
      ensures ok ==> FollowsStrategy(m.tok, texts, settings.strategy, order)
      ensures ok ==> Placed(data[..], order, AllVectors(m, texts, order, BatchSize(settings.strategy, b)).value, m.dim)
      ensures ok ==> runs == BatchCount(|texts|, BatchSize(settings.strategy, b))
    {
      hide ValidModel, FollowsStrategy, Placed, AllVectors, Mul, IsOrder;
      data := new real[Mul(|texts|, m.dim)];
      var cells;
      ok, cells, order, runs := OnnxEmbed(m, texts, settings.strategy, b, data);
    }

    /** Embeds the texts into a new flat buffer; a call that is rejected or throws leaves no buffer and no trace in the
        statistics, which count batches of the call's size. `runs` counts the session runs. */
    method Embed(texts: seq<string>, requested: int)
      returns (status: Status, data: array?<real>, ghost order: seq<nat>, ghost runs: nat)
      requires Valid()
      modifies this
      ensures Valid() && IsOrder(order, |texts|)
      ensures texts == [] <==> status == InvalidArgument
      ensures status == BatchSizeError <==> texts != [] && settings.dynamic && 0 < requested < |texts|
      ensures texts != [] ==>
        match CallBatch(settings, |texts|, requested)
        case None => status == BatchSizeError
        case Some(b) =>
          status == if Succeeds(m, settings.strategy, texts, order, b) then Ok else OnnxRuntimeError
      ensures status == Ok ==>
        var b := CallBatch(settings, |texts|, requested).value;
        && data != null && fresh(data) && data.Length == Mul(|texts|, m.dim)
        && FollowsStrategy(m.tok, texts, settings.strategy, order)
        && Placed(data[..], order, AllVectors(m, texts, order, BatchSize(settings.strategy, b)).value, m.dim)
        && runs == BatchCount(|texts|, BatchSize(settings.strategy, b))
        && textsEmbedded == old(textsEmbedded) + |texts|
        && batchesRun == old(batchesRun) + BatchCount(|texts|, b)
        && statsCalls == old(statsCalls) + 1
        && b == if settings.dynamic then |texts| else if requested <= 0 then settings.batchSize else requested
      ensures status != Ok ==> data == null && unchanged(this)
    {
      order, runs := UpTo(|texts|), 0;
      hide ValidModel, FollowsStrategy, Placed, AllVectors, Mul, IsOrder, BatchCount;
      if texts == [] {
        return InvalidArgument, null, order, runs;
      }
      var b := |texts|;
      if settings.dynamic {
        if 0 < requested < |texts| {
          return BatchSizeError, null, order, runs;
        }
      } else {
        b := if requested <= 0 then settings.batchSize else requested;
      }
      var ok, result;
      ok, result, order, runs := EmbedInto(texts, b);
      hide Succeeds, BatchSize;
      if !ok {
        return OnnxRuntimeError, null, order, runs;
      }
      textsEmbedded := textsEmbedded + |texts|;
      batchesRun := batchesRun + BatchCount(|texts|, b);
      statsCalls := statsCalls + 1;
      return Ok, result, order, runs;
    }
  }
}
