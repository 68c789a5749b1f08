/** The embedding pool over the dense embedding call: what a pool returns and streams is the embedding of every text on
    its own, whatever the workers, the batch size, the batch strategy and the interleaving. */
module PoolEmbedding {
  import opened Arithmetic
  import opened BatchRuns
  import opened DenseEmbedding
  import EmbeddingPool
  import EmbedStream
  import opened Normalize
  import opened OnnxBatching
  import opened Pooling
  import opened Sequences
  import opened Status
  import opened TextEmbedding
  import opened Tokenizing

  // ----- one call of a worker -----

  /** Row order[j] is the j-th vector. */
  ghost predicate InPlaces(rows: seq<Vec>, order: seq<nat>, vectors: seq<Vec>) {
    && |rows| == |order| == |vectors|
    && forall j :: 0 <= j < |order| ==> order[j] < |rows| && rows[order[j]] == vectors[j]
  }

  /** A call whose texts were processed in this order, all in one batch or one by one. */
  ghost predicate IsCallIn(m: Model, strategy: Strategy, texts: seq<string>, order: seq<nat>, call: EmbeddingPool.Call)
    requires ValidModel(m) && IsOrder(order, |texts|) && texts != []
  {
    match call
    case Failed => !Succeeds(m, strategy, texts, order, |texts|)
    case Embedded(rows) =>
      && Succeeds(m, strategy, texts, order, |texts|) && FollowsStrategy(m.tok, texts, strategy, order)
      && InPlaces(rows, order, AllVectors(m, texts, order, BatchSize(strategy, |texts|)).value)
  }

  /** What a worker's call on the texts may come to; the order of ties is the sort's. */
  ghost predicate IsCall(m: Model, strategy: Strategy, texts: seq<string>, call: EmbeddingPool.Call)
    requires ValidModel(m)
  {
    if texts == [] then call.Failed?
    else exists order :: IsOrder(order, |texts|) && IsCallIn(m, strategy, texts, order, call)
  }

  /** Copies the rows out of the flat buffer. */
  method CopyRows(data: array<real>, n: nat, dim: nat) returns (rows: seq<Vec>)
    requires data.Length == Mul(n, dim)
    ensures |rows| == n
    ensures forall k :: 0 <= k < n ==> Mul(k, dim) + dim <= data.Length && rows[k] == RowAt(data[..], k, dim)
  {
    RowsFit(n, dim);
    hide Mul;
    rows := [];
    for k := 0 to n
      invariant |rows| == k && forall i :: 0 <= i < k ==> rows[i] == RowAt(data[..], i, dim)
    {
      assert data[Mul(k, dim)..Mul(k, dim) + dim] == data[..][Mul(k, dim)..Mul(k, dim) + dim];
      rows := rows + [data[Mul(k, dim)..Mul(k, dim) + dim]];
    }
  }

  lemma {:induction false} PlacedRows(data: Vec, rows: seq<Vec>, order: seq<nat>, vectors: seq<Vec>, n: nat, dim: nat)
    requires IsOrder(order, n) && Placed(data, order, vectors, dim) && |vectors| == |rows| == n
    requires forall k :: 0 <= k < n ==> Mul(k, dim) + dim <= |data| && rows[k] == RowAt(data, k, dim)
    ensures InPlaces(rows, order, vectors)
  {
    hide Mul, RowAt;
    OrderCovers(order, n);
  }

  /** A worker embeds a batch with one library call whose batch size is the number of texts. */
  method CallWorker(ctx: Context, texts: seq<string>) returns (call: EmbeddingPool.Call)
    requires ctx.Valid()
    modifies ctx
    ensures ctx.Valid()
    ensures IsCall(ctx.m, ctx.settings.strategy, texts, call)
  {
    hide ValidModel, FollowsStrategy, AllVectors, Placed, InPlaces, IsOrder, Mul;
    var status, data;
    ghost var order, runs;
    status, data, order, runs := ctx.Embed(texts, |texts|);
    if status != Ok {
      return EmbeddingPool.Failed;
    }
    var rows := CopyRows(data, |texts|, ctx.m.dim);
    ghost var vectors := AllVectors(ctx.m, texts, order, BatchSize(ctx.settings.strategy, |texts|)).value;
    PlacedRows(data[..], rows, order, vectors, |texts|, ctx.m.dim);
    return EmbeddingPool.Embedded(rows);
  }

  /** A successful call of a padding-independent model embeds every text on its own. */
  lemma {:induction false} CallEmbeds(m: Model, hidden: seq<int> -> seq<Vec>, strategy: Strategy, texts: seq<string>,
                                      rows: seq<Vec>)
    requires ValidModel(m) && PaddingIndependent(m, hidden) && StartsWithToken(m)
    requires IsCall(m, strategy, texts, EmbeddingPool.Embedded(rows))
    ensures rows == Map(VectorOf(m, hidden), texts)
  {
    hide ValidModel, StartsWithToken, FollowsStrategy, AllVectors, TextVector, IsOrder, ShownRows;
    var order :| IsOrder(order, |texts|) && IsCallIn(m, strategy, texts, order, EmbeddingPool.Embedded(rows));
    var b := BatchSize(strategy, |texts|);
    forall k | 0 <= k < |texts| ensures rows[k] == TextVector(m, hidden, texts[k]) {
      OrderCovers(order, |texts|);
      assert k in order;
      var j :| 0 <= j < |order| && order[j] == k;
      VectorAt(m, hidden, texts, order, b, j);
    }
  }

  // ----- the pool -----

  /** The sessions of the workers: worker w's session as the call on its batch at offset i finds it. */
  type Sessions = (nat, nat) -> Session

  /** The workers are configured alike; they differ in their sessions. */
  function WorkerModel(m: Model, sessions: Sessions, w: nat, i: nat): Model {
    m.(run := sessions(w, i))
  }

  ghost predicate ValidWorkers(m: Model, sessions: Sessions) {
    forall w: nat, i: nat :: ValidModel(WorkerModel(m, sessions, w, i))
  }

  /** Every session computes a text's rows from its tokens alone, and all compute the same. */
  ghost predicate IndependentWorkers(m: Model, sessions: Sessions, hidden: seq<int> -> seq<Vec>) {
    && StartsWithToken(m) && WideHidden(hidden, m.dim)
    && forall w: nat, i: nat :: PaddingIndependent(WorkerModel(m, sessions, w, i), hidden)
  }

  /** The backend's answers are those of the workers' calls. */
  ghost predicate Answers(backend: EmbeddingPool.Backend, m: Model, sessions: Sessions, strategy: Strategy)
    requires ValidWorkers(m, sessions)
  {
    forall w: nat, i: nat, texts: seq<string> ::
      IsCall(WorkerModel(m, sessions, w, i), strategy, texts, backend(w, i, texts))
  }

  lemma {:induction false} SameTextVectors(m: Model, sessions: Sessions, hidden: seq<int> -> seq<Vec>, w: nat, i: nat,
                                           texts: seq<string>)
    requires WideHidden(hidden, m.dim)
    ensures Map(VectorOf(WorkerModel(m, sessions, w, i), hidden), texts) == Map(VectorOf(m, hidden), texts)
  {
    forall k | 0 <= k < |texts|
      ensures TextVector(WorkerModel(m, sessions, w, i), hidden, texts[k]) == TextVector(m, hidden, texts[k])
    {
    }
  }

  lemma {:induction false} WorkerEmbeds(m: Model, sessions: Sessions, hidden: seq<int> -> seq<Vec>, strategy: Strategy,
                                        w: nat, i: nat, texts: seq<string>, call: EmbeddingPool.Call)
    requires ValidWorkers(m, sessions) && IndependentWorkers(m, sessions, hidden)
    requires IsCall(WorkerModel(m, sessions, w, i), strategy, texts, call)
    ensures call == EmbeddingPool.Failed || call == EmbeddingPool.Embedded(Map(VectorOf(m, hidden), texts))
  {
    hide ValidModel, PaddingIndependent, IsCall, VectorOf;
    if call.Embedded? {
      CallEmbeds(WorkerModel(m, sessions, w, i), hidden, strategy, texts, call.rows);
      SameTextVectors(m, sessions, hidden, w, i, texts);
    }
  }

  /** A pool of padding-independent sessions is a pool whose calls embed their texts one by one. */
  lemma {:induction false} WorkersEmbed(backend: EmbeddingPool.Backend, m: Model, sessions: Sessions,
                                        hidden: seq<int> -> seq<Vec>, strategy: Strategy)
    requires ValidWorkers(m, sessions) && IndependentWorkers(m, sessions, hidden)
    requires Answers(backend, m, sessions, strategy)
    ensures EmbeddingPool.EmbedsWith(backend, VectorOf(m, hidden))
  {
    hide IsCall, ValidWorkers, VectorOf;
    forall w: nat, i: nat, texts: seq<string>
      ensures backend(w, i, texts) == EmbeddingPool.Failed
           || backend(w, i, texts) == EmbeddingPool.Embedded(Map(VectorOf(m, hidden), texts))
    {
      WorkerEmbeds(m, sessions, hidden, strategy, w, i, texts, backend(w, i, texts));
    }
  }

  /** `embed` returns the embedding of every text whose batch succeeded, on its own, in text order. */
  lemma {:induction false} PoolReturnsEmbeddings(c: EmbeddingPool.Config, m: Model, sessions: Sessions,
                                                 hidden: seq<int> -> seq<Vec>, strategy: Strategy)
    requires EmbeddingPool.Valid(c) && ValidWorkers(m, sessions) && IndependentWorkers(m, sessions, hidden)
    requires Answers(c.backend, m, sessions, strategy)
    ensures EmbeddingPool.InOrder(c, c.workers)
         == EmbeddingPool.Survivors(c, VectorOf(m, hidden), 0, |c.texts|)
  {
    hide ValidWorkers, Answers;
    WorkersEmbed(c.backend, m, sessions, hidden, strategy);
    EmbeddingPool.EmbedReturnsSurvivors(c, VectorOf(m, hidden));
  }

  /** A finished `embed_stream` has called back exactly those, in every interleaving. */
  lemma {:induction false} StreamDeliversEmbeddings(c: EmbeddingPool.Config, m: Model, sessions: Sessions,
                                                    hidden: seq<int> -> seq<Vec>, strategy: Strategy,
                                                    states: seq<EmbedStream.State>, actions: seq<EmbedStream.Action>)
    requires ValidWorkers(m, sessions) && IndependentWorkers(m, sessions, hidden)
    requires Answers(c.backend, m, sessions, strategy)
    requires EmbedStream.IsRun(c, states, actions) && states[|actions|].main == c.workers + 1
    ensures states[|actions|].delivered == EmbeddingPool.Survivors(c, VectorOf(m, hidden), 0, |c.texts|)
  {
    hide ValidWorkers, IndependentWorkers, Answers, EmbedStream.Inv;
    EmbedStream.RunInv(c, states, actions, |actions|);
    EmbedStream.JoinedMeansDelivered(c, states[|actions|]);
    PoolReturnsEmbeddings(c, m, sessions, hidden, strategy);
  }

  // ----- when nothing throws -----

  /** No batch of these texts throws, in encoding or in its run. */
  ghost predicate NothingThrows(m: Model, texts: seq<string>) {
    forall batch :: batch != [] && (forall t :: t in batch ==> t in texts) ==> RunBatch(m, batch).Some?
  }

  ghost predicate NoWorkerThrows(m: Model, sessions: Sessions, texts: seq<string>) {
    forall w: nat, i: nat :: NothingThrows(WorkerModel(m, sessions, w, i), texts)
  }

  lemma {:induction false} AllBatchesSucceed(m: Model, texts: seq<string>, items: seq<string>, b: nat, lo: nat)
    requires ValidModel(m) && b > 0 && NothingThrows(m, texts) && forall t :: t in items ==> t in texts
    ensures InBatches(Outcome(m), items, b, lo).Some?
    decreases |items| - lo
  {
    hide ValidModel;
    if lo < |items| {
      var hi := Min(lo + b, |items|);
      OutcomeOf(m, items[lo..hi]);
      assert forall t :: t in items[lo..hi] ==> t in items;
      AllBatchesSucceed(m, texts, items, b, hi);
    }
  }

  lemma {:induction false} CallSucceeds(m: Model, strategy: Strategy, texts: seq<string>, call: EmbeddingPool.Call)
    requires ValidModel(m) && IsCall(m, strategy, texts, call) && texts != [] && NothingThrows(m, texts)
    ensures call.Embedded?
  {
    hide ValidModel, InBatches;
    var order :| IsOrder(order, |texts|) && IsCallIn(m, strategy, texts, order, call);
    var b := BatchSize(strategy, |texts|);
    forall t | t in InOrder(texts, order) ensures t in texts {
    }
    AllBatchesSucceed(m, texts, InOrder(texts, order), b, 0);
    assert RunBatch(m, texts).Some?;
  }

  /** When nothing throws the pool returns the embedding of every text on its own, for all worker counts, batch sizes
      and batch strategies. */
  lemma {:induction false} PoolIsMap(c: EmbeddingPool.Config, m: Model, sessions: Sessions,
                                     hidden: seq<int> -> seq<Vec>, strategy: Strategy)
    requires EmbeddingPool.Valid(c) && ValidWorkers(m, sessions) && IndependentWorkers(m, sessions, hidden)
    requires Answers(c.backend, m, sessions, strategy) && NoWorkerThrows(m, sessions, c.texts)
    ensures EmbeddingPool.InOrder(c, c.workers) == Map(VectorOf(m, hidden), c.texts)
  {
    WorkersEmbed(c.backend, m, sessions, hidden, strategy);
    WorkersNeverFail(c, m, sessions, strategy);
    hide ValidWorkers, Answers, NoWorkerThrows;
    EmbeddingPool.EmbedIsMap(c, VectorOf(m, hidden));
  }

  lemma {:induction false} WorkersNeverFail(c: EmbeddingPool.Config, m: Model, sessions: Sessions, strategy: Strategy)
    requires ValidWorkers(m, sessions) && Answers(c.backend, m, sessions, strategy)
    requires NoWorkerThrows(m, sessions, c.texts)
    ensures EmbeddingPool.NeverFails(c)
  {
    hide IsCall, ValidModel;
    forall w: nat, i: nat, texts: seq<string> | texts != [] && forall t :: t in texts ==> t in c.texts
      ensures c.backend(w, i, texts).Embedded?
    {
      SmallerCorpus(WorkerModel(m, sessions, w, i), texts, c.texts);
      CallSucceeds(WorkerModel(m, sessions, w, i), strategy, texts, c.backend(w, i, texts));
    }
  }

  lemma SmallerCorpus(m: Model, texts: seq<string>, all: seq<string>)
    requires NothingThrows(m, all) && forall t :: t in texts ==> t in all
    ensures NothingThrows(m, texts)
  {
  }

  /** Then a finished stream has called back every text's own embedding once, in text order. */
  lemma {:induction false} StreamIsMap(c: EmbeddingPool.Config, m: Model, sessions: Sessions,
                                       hidden: seq<int> -> seq<Vec>, strategy: Strategy,
                                       states: seq<EmbedStream.State>, actions: seq<EmbedStream.Action>)
    requires ValidWorkers(m, sessions) && IndependentWorkers(m, sessions, hidden)
    requires Answers(c.backend, m, sessions, strategy) && NoWorkerThrows(m, sessions, c.texts)
    requires EmbedStream.IsRun(c, states, actions) && states[|actions|].main == c.workers + 1
    ensures states[|actions|].delivered == Map(VectorOf(m, hidden), c.texts)
  {
    WorkersEmbed(c.backend, m, sessions, hidden, strategy);
    WorkersNeverFail(c, m, sessions, strategy);
    hide ValidWorkers, Answers, NoWorkerThrows;
    EmbedStream.StreamIsMap(c, VectorOf(m, hidden), states, actions);
  }

  /** And row k of the pool's result is row k of one library call on all texts, whatever batch size that call has. */
  lemma {:induction false} PoolAgreesWithOneCall(c: EmbeddingPool.Config, m: Model, sessions: Sessions,
                                                 hidden: seq<int> -> seq<Vec>, strategy: Strategy,
                                                 order: seq<nat>, b: nat, data: Vec, k: nat)
    requires EmbeddingPool.Valid(c) && ValidWorkers(m, sessions) && IndependentWorkers(m, sessions, hidden)
    requires Answers(c.backend, m, sessions, strategy) && NoWorkerThrows(m, sessions, c.texts)
    requires ValidModel(m) && PaddingIndependent(m, hidden) && b > 0 && k < |c.texts|
    requires IsOrder(order, |c.texts|) && AllVectors(m, c.texts, order, b).Some?
    requires Placed(data, order, AllVectors(m, c.texts, order, b).value, m.dim)
    ensures |EmbeddingPool.InOrder(c, c.workers)| == |c.texts| && Mul(k, m.dim) + m.dim <= |data|
    ensures RowAt(data, k, m.dim) == EmbeddingPool.InOrder(c, c.workers)[k]
  {
    PoolIsMap(c, m, sessions, hidden, strategy);
    EmbeddingsInPlace(m, hidden, c.texts, order, b, data, k);
    hide EmbeddingPool.InOrder, Placed, AllVectors, IsOrder, RowAt, Mul, TextVector;
  }
}
