/** The embedding pool: texts are split over workers, each worker embeds its share batch by batch. */
module EmbeddingPool {
  import opened Sequences
  import opened Batching

  type Vec = seq<real>

  /** Result of one backend call: the embeddings of the batch, or an error status. */
  datatype Call = Embedded(rows: seq<Vec>) | Failed

  /** The backend as seen by the pool: worker, offset of the batch, texts of the batch. */
  type Backend = (nat, nat, seq<string>) -> Call

  datatype Config = Config(backend: Backend, texts: seq<string>, workers: nat, batch: nat)

  ghost predicate Valid(c: Config) { c.workers > 0 && c.batch > 0 && c.texts != [] }

  function PerWorker(c: Config): nat
    requires Valid(c)
  {
    (|c.texts| + c.workers - 1) / c.workers
  }

  function Start(c: Config, w: nat): nat
    requires Valid(c)
  {
    w * PerWorker(c)
  }

  function End(c: Config, w: nat): (e: nat)
    requires Valid(c)
    ensures e <= |c.texts|
  {
    if Start(c, w) + PerWorker(c) < |c.texts| then Start(c, w) + PerWorker(c) else |c.texts|
  }

  predicate IsEmpty(c: Config, w: nat)
    requires Valid(c)
  {
    Start(c, w) >= End(c, w)
  }

  function Rows(call: Call): seq<Vec> {
    match call
    case Embedded(rows) => rows
    case Failed => []
  }

  /** Where the batch that starts at i ends. */
  function Stop(c: Config, i: nat, end: nat): (hi: nat)
    ensures hi <= end && (i <= end ==> i <= hi) && (Valid(c) && i < end ==> i < hi)
  {
    if i + c.batch < end then i + c.batch else end
  }

  /** What the batch that starts at i contributes. */
  function BatchRows(c: Config, w: nat, i: nat, end: nat): seq<Vec>
    requires i <= end <= |c.texts|
  {
    Rows(c.backend(w, i, c.texts[i..Stop(c, i, end)]))
  }

  /** What worker w produces for texts i..end: the successful batches, one after the other. */
  function SubsetFrom(c: Config, w: nat, i: nat, end: nat): seq<Vec>
    requires Valid(c) && end <= |c.texts|
    decreases end - i
  {
    if i >= end then [] else BatchRows(c, w, i, end) + SubsetFrom(c, w, Stop(c, i, end), end)
  }

  function Subset(c: Config, w: nat): seq<Vec>
    requires Valid(c)
  {
    SubsetFrom(c, w, Start(c, w), End(c, w))
  }

  /** The subsets of workers 0..n-1 in worker order. */
  function InOrder(c: Config, n: nat): seq<Vec>
    requires Valid(c)
  {
    if n == 0 then [] else InOrder(c, n - 1) + Subset(c, n - 1)
  }

  /** Empty workers form a suffix and contribute nothing, so stopping at the first one loses no text. */
  lemma {:induction false} EmptySuffix(c: Config, w: nat, n: nat)
    requires Valid(c) && IsEmpty(c, w) && w <= n
    ensures IsEmpty(c, n)
    ensures InOrder(c, n) == InOrder(c, w)
  {
    Product(w, n, PerWorker(c));
    if w < n {
      EmptySuffix(c, w, n - 1);
    }
  }

  /** The shares cover every text: the one after the last worker's would start at or past the end. */
  lemma {:induction false} SharesCover(c: Config)
    requires Valid(c)
    ensures Start(c, c.workers) >= |c.texts|
    ensures 0 < PerWorker(c)
  {
    DivideBounds(|c.texts| + c.workers - 1, c.workers);
    var p := PerWorker(c);
    assert (p + 1) * c.workers == p * c.workers + c.workers;
  }

  method AppendRows(front: seq<Vec>, rows: seq<Vec>) returns (result: seq<Vec>)
    ensures result == front + rows
  {
    result := front;
    for k := 0 to |rows|
      invariant result == front + rows[..k]
    {
      result := result + [rows[k]];
    }
  }

  method EmbedSubset(c: Config, w: nat, start: nat, end: nat) returns (result: seq<Vec>)
    requires Valid(c) && end <= |c.texts|
    ensures result == SubsetFrom(c, w, start, end)
  {
    hide BatchRows;
    result := [];
    var i := start;
    while i < end
      invariant result + SubsetFrom(c, w, i, end) == SubsetFrom(c, w, start, end)
    {
      var rows := EmbedBatch(c, w, i, end);
      ConcatAssociative(result, rows, SubsetFrom(c, w, Stop(c, i, end), end));
      result := AppendRows(result, rows);
      i := i + c.batch;
    }
    ConcatAssociative(result, [], []);
  }

  /** One call to the backend; a failed batch contributes nothing. */
  method EmbedBatch(c: Config, w: nat, i: nat, end: nat) returns (rows: seq<Vec>)
    requires i < end <= |c.texts|
    ensures rows == BatchRows(c, w, i, end)
  {
    var n := if c.batch < end - i then c.batch else end - i;
    var call := c.backend(w, i, c.texts[i..i + n]);
    rows := if call.Embedded? then call.rows else [];
  }

  /** One task per worker, up to the first empty one. */
  method Launch(c: Config) returns (futures: seq<seq<Vec>>)
    requires Valid(c)
    ensures Flatten(futures) == InOrder(c, c.workers)
  {
    hide SubsetFrom;
    futures := [];
    var w := 0;
    while w < c.workers
      invariant 0 <= w <= c.workers
      invariant Flatten(futures) == InOrder(c, w)
    {
      if IsEmpty(c, w) {
        EmptySuffix(c, w, c.workers);
        break;
      }
      var partial := EmbedSubset(c, w, Start(c, w), End(c, w));
      assert (futures + [partial])[..|futures|] == futures;
      futures := futures + [partial];
      w := w + 1;
    }
  }

  /** `embed`: launch one task per non-empty worker, then collect the partial results in worker order. */
  method Embed(backend: Backend, texts: seq<string>, workers: nat, requested: int, defaultBatch: nat)
    returns (result: seq<Vec>)
    requires workers > 0 && defaultBatch > 0
    ensures texts == [] ==> result == []
    ensures texts != [] ==>
      result == InOrder(Config(backend, texts, workers, if requested <= 0 then defaultBatch else requested), workers)
  {
    if texts == [] {
      return [];
    }
    hide InOrder;
    var c := Config(backend, texts, workers, if requested <= 0 then defaultBatch else requested);
    var futures := Launch(c);
    result := [];
    for f := 0 to |futures|
      invariant result == Flatten(futures[..f])
    {
      assert futures[..f + 1][..f] == futures[..f];
      result := AppendRows(result, futures[f]);
    }
    assert futures[..|futures|] == futures;
  }

  // ----- what the result means -----

  /** Every call either fails or embeds its texts one by one with f. */
  ghost predicate EmbedsWith(backend: Backend, f: string -> Vec) {
    forall w: nat, i: nat, ts: seq<string> :: backend(w, i, ts) == Failed || backend(w, i, ts) == Embedded(Map(f, ts))
  }

  /** No call on texts of the input fails; a call without texts always may. */
  ghost predicate NeverFails(c: Config) {
    forall w: nat, i: nat, ts: seq<string> :: ts != [] && (forall t :: t in ts ==> t in c.texts) ==>
      c.backend(w, i, ts).Embedded?
  }

  /** p texts a worker are the smallest equal shares that cover the input. */
  predicate IsShare(c: Config, p: nat) {
    p > 0 && (p - 1) * c.workers < |c.texts| <= p * c.workers
  }

  /** With p texts a worker, text k travels in worker w's m-th batch, texts i to hi-1: its share starts at w * p, its
      batches are c.batch texts apart, and only the last one is cut, by the end of the share or of the input. */
  predicate TravelsIn(c: Config, p: nat, k: nat, w: nat, m: nat, i: nat, hi: nat) {
    && IsShare(c, p) && w * p <= k < w * p + p && k < |c.texts|
    && i == w * p + m * c.batch && i <= k < hi <= i + c.batch
    && hi <= w * p + p && hi <= |c.texts| && (hi == i + c.batch || hi == w * p + p || hi == |c.texts|)
  }

  predicate CallSucceeds(c: Config, w: nat, i: nat, hi: nat) {
    i <= hi <= |c.texts| && c.backend(w, i, c.texts[i..hi]).Embedded?
  }

  /** The call that text k travels in succeeds. */
  ghost predicate Survives(c: Config, k: nat) {
    exists p: nat, w: nat, m: nat, i: nat, hi: nat :: TravelsIn(c, p, k, w, m, i, hi) && CallSucceeds(c, w, i, hi)
  }

  /** The smallest equal share is what a worker gets. */
  lemma {:induction false} ShareIs(c: Config, p: nat)
    requires Valid(c)
    ensures IsShare(c, p) <==> p == PerWorker(c)
  {
    var q := PerWorker(c);
    SharesCover(c);
    DivideBounds(|c.texts| + c.workers - 1, c.workers);
    OneShareLess(q, c.workers);
    if IsShare(c, p) && p < q {
      Product(p, q - 1, c.workers);
    } else if IsShare(c, p) && p > q {
      Product(q, p - 1, c.workers);
    }
  }

  lemma OneShareLess(q: nat, workers: nat)
    requires q > 0
    ensures (q - 1) * workers == q * workers - workers
  {
  }

  /** Every worker but those at the end gets p texts; at the end the remainder, and then nothing. */
  lemma {:induction false} Shares(c: Config, p: nat, w: nat)
    requires Valid(c) && IsShare(c, p)
    ensures Start(c, w) == w * p
    ensures End(c, w) == if w * p + p <= |c.texts| then w * p + p else |c.texts|
  {
    ShareIs(c, p);
  }

  /** The embeddings of those texts among lo..hi-1 whose batch succeeded, in text order. */
  ghost function Survivors(c: Config, f: string -> Vec, lo: nat, hi: nat): seq<Vec>
    requires hi <= |c.texts|
  {
    if lo >= hi then []
    else Survivors(c, f, lo, hi - 1) + if Survives(c, hi - 1) then [f(c.texts[hi - 1])] else []
  }

  lemma {:induction false} SurvivorsSplit(c: Config, f: string -> Vec, lo: nat, mid: nat, hi: nat)
    requires Valid(c) && lo <= mid <= hi <= |c.texts|
    ensures Survivors(c, f, lo, hi) == Survivors(c, f, lo, mid) + Survivors(c, f, mid, hi)
  {
    hide Survives;
    if mid < hi {
      SurvivorsSplit(c, f, lo, mid, hi - 1);
      var last := if Survives(c, hi - 1) then [f(c.texts[hi - 1])] else [];
      ConcatAssociative(Survivors(c, f, lo, mid), Survivors(c, f, mid, hi - 1), last);
    } else {
      ConcatAssociative(Survivors(c, f, lo, mid), [], []);
    }
  }

  lemma {:induction false} QuotientIs(k: nat, p: nat, w: nat, v: nat)
    requires w * p <= k < w * p + p && v * p <= k < v * p + p
    ensures w == v
  {
    TimesIs(k, p, w);
    TimesIs(k, p, v);
  }

  /** A text travels in one call only. */
  lemma {:induction false} OneCall(c: Config, p: nat, k: nat, w: nat, m: nat, i: nat, hi: nat,
                                   p': nat, w': nat, m': nat, i': nat, hi': nat)
    requires Valid(c) && TravelsIn(c, p, k, w, m, i, hi) && TravelsIn(c, p', k, w', m', i', hi')
    ensures p == p' && w == w' && i == i' && hi == hi'
  {
    ShareIs(c, p);
    ShareIs(c, p');
    QuotientIs(k, p, w, w');
    QuotientIs(k - w * p, c.batch, m, m');
  }

  /** A text of worker w's m-th batch travels in exactly that batch. */
  lemma {:induction false} FindsItsBatch(c: Config, w: nat, m: nat, i: nat, k: nat)
    requires Valid(c) && i == Start(c, w) + m * c.batch
    requires i <= k < Stop(c, i, End(c, w))
    ensures TravelsIn(c, PerWorker(c), k, w, m, i, Stop(c, i, End(c, w)))
  {
    ShareIs(c, PerWorker(c));
    hide PerWorker, IsShare;
  }

  /** A text survives exactly when its batch succeeded. */
  lemma {:induction false} SurvivesWithBatch(c: Config, w: nat, m: nat, i: nat, k: nat)
    requires Valid(c) && i == Start(c, w) + m * c.batch
    requires i <= k < Stop(c, i, End(c, w))
    ensures Survives(c, k) <==> c.backend(w, i, c.texts[i..Stop(c, i, End(c, w))]).Embedded?
  {
    var p, hi := PerWorker(c), Stop(c, i, End(c, w));
    FindsItsBatch(c, w, m, i, k);
    hide Start, PerWorker, End, Stop, TravelsIn;
    if Survives(c, k) {
      var p', w', m', i', hi' :| TravelsIn(c, p', k, w', m', i', hi') && CallSucceeds(c, w', i', hi');
      OneCall(c, p, k, w, m, i, hi, p', w', m', i', hi');
    }
  }

  lemma {:induction false} MapSnoc(f: string -> Vec, texts: seq<string>, i: nat, hi: nat)
    requires i < hi <= |texts|
    ensures Map(f, texts[i..hi]) == Map(f, texts[i..hi - 1]) + [f(texts[hi - 1])]
  {
    assert texts[i..hi] == texts[i..hi - 1] + [texts[hi - 1]];
  }

  lemma {:induction false} AllOrNone(c: Config, f: string -> Vec, lo: nat, hi: nat, good: bool)
    requires Valid(c) && lo <= hi <= |c.texts|
    requires forall k :: lo <= k < hi ==> (Survives(c, k) <==> good)
    ensures Survivors(c, f, lo, hi) == if good then Map(f, c.texts[lo..hi]) else []
  {
    hide Survives, PerWorker;
    if lo < hi {
      AllOrNone(c, f, lo, hi - 1, good);
      MapSnoc(f, c.texts, lo, hi);
    } else {
      assert c.texts[lo..hi] == [];
    }
  }

  /** The texts of a batch survive all together or not at all. */
  lemma {:induction false} BatchSurvivors(c: Config, f: string -> Vec, w: nat, m: nat, i: nat)
    requires Valid(c) && i == Start(c, w) + m * c.batch && i <= End(c, w)
    ensures var hi := Stop(c, i, End(c, w));
      Survivors(c, f, i, hi) == if c.backend(w, i, c.texts[i..hi]).Embedded? then Map(f, c.texts[i..hi]) else []
  {
    var hi := Stop(c, i, End(c, w));
    var good := c.backend(w, i, c.texts[i..hi]).Embedded?;
    forall k | i <= k < hi ensures Survives(c, k) <==> good {
      SurvivesWithBatch(c, w, m, i, k);
    }
    hide Survives, Start, PerWorker, End, Stop, Survivors;
    AllOrNone(c, f, i, hi, good);
  }

  lemma {:induction false} SubsetSurvivors(c: Config, f: string -> Vec, w: nat, m: nat, i: nat)
    requires Valid(c) && EmbedsWith(c.backend, f)
    requires i == Start(c, w) + m * c.batch
    ensures SubsetFrom(c, w, i, End(c, w)) == Survivors(c, f, i, End(c, w))
    decreases End(c, w) - i
  {
    hide Survivors;
    var end := End(c, w);
    if i >= end {
      NoSurvivors(c, f, i, end);
    } else {
      var hi := Stop(c, i, end);
      BatchSurvivors(c, f, w, m, i);
      assert BatchRows(c, w, i, end) == Survivors(c, f, i, hi);
      SurvivorsSplit(c, f, i, hi, end);
      if hi < end {
        assert (m + 1) * c.batch == m * c.batch + c.batch;
        SubsetSurvivors(c, f, w, m + 1, hi);
      } else {
        NoSurvivors(c, f, end, end);
      }
    }
  }

  /** Whatever batches fail, the result is the in-order embeddings of exactly the texts whose batch succeeded. */
  lemma {:induction false} InOrderSurvivors(c: Config, f: string -> Vec, n: nat)
    requires Valid(c) && EmbedsWith(c.backend, f)
    ensures InOrder(c, n) == Survivors(c, f, 0, if Start(c, n) < |c.texts| then Start(c, n) else |c.texts|)
  {
    hide Survivors, SubsetFrom, EmbedsWith;
    if n == 0 {
      NoSurvivors(c, f, 0, 0);
    } else {
      InOrderSurvivors(c, f, n - 1);
      SubsetSurvivors(c, f, n - 1, 0, Start(c, n - 1));
      assert Start(c, n) == Start(c, n - 1) + PerWorker(c);
      if IsEmpty(c, n - 1) {
        EmptySuffix(c, n - 1, n);
      } else {
        SurvivorsSplit(c, f, 0, Start(c, n - 1), End(c, n - 1));
      }
    }
  }

  lemma NoSurvivors(c: Config, f: string -> Vec, lo: nat, hi: nat)
    requires Valid(c) && hi <= lo && hi <= |c.texts|
    ensures Survivors(c, f, lo, hi) == []
  {
  }

  lemma {:induction false} EmbedReturnsSurvivors(c: Config, f: string -> Vec)
    requires Valid(c) && EmbedsWith(c.backend, f)
    ensures InOrder(c, c.workers) == Survivors(c, f, 0, |c.texts|)
  {
    SharesCover(c);
    InOrderSurvivors(c, f, c.workers);
  }

  /** Every text travels in a call of some worker. */
  lemma {:induction false} EveryTextTravels(c: Config, k: nat)
    returns (w: nat, m: nat, i: nat, hi: nat)
    requires Valid(c) && k < |c.texts|
    ensures w < c.workers && TravelsIn(c, PerWorker(c), k, w, m, i, hi)
  {
    SharesCover(c);
    var p := PerWorker(c);
    w := Times(k, p);
    m := Times(k - w * p, c.batch);
    i := w * p + m * c.batch;
    hi := Stop(c, i, End(c, w));
    FindsItsBatch(c, w, m, i, k);
    if w >= c.workers {
      Product(c.workers, w, p);
    }
  }

  /** When every call succeeds the pool computes the plain map, for every worker count and batch size. */
  lemma {:induction false} EmbedIsMap(c: Config, f: string -> Vec)
    requires Valid(c) && EmbedsWith(c.backend, f) && NeverFails(c)
    ensures InOrder(c, c.workers) == Map(f, c.texts)
  {
    EmbedReturnsSurvivors(c, f);
    AllCallsSucceed(c);
    AllOrNone(c, f, 0, |c.texts|, true);
    assert c.texts[0..|c.texts|] == c.texts;
  }

  lemma {:induction false} AllCallsSucceed(c: Config)
    requires Valid(c) && NeverFails(c)
    ensures forall k :: 0 <= k < |c.texts| ==> Survives(c, k)
  {
    forall k | 0 <= k < |c.texts| ensures Survives(c, k) {
      var w, m, i, hi := EveryTextTravels(c, k);
      var ts := c.texts[i..hi];
      assert ts != [] && c.backend(w, i, ts).Embedded?;
    }
  }
}
