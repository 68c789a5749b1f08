/** Running something batch by batch, where every batch may fail. */
module BatchRuns {
  import opened Sequences
  import opened Status

  /** What comes before a rest that may have failed. */
  function Prepend<T>(front: seq<T>, rest: Option<seq<T>>): Option<seq<T>> {
    match rest
    case None => None
    case Some(s) => Some(front + s)
  }

  /** A batch that succeeds yields one result per item. */
  ghost predicate OnePerItem<T(!new), R>(f: seq<T> -> Option<seq<R>>) {
    forall batch :: f(batch).Some? ==> |f(batch).value| == |batch|
  }

  /** The results of the items from `lo` on, b at a time; None when some batch fails. */
  ghost function InBatches<T(!new), R>(f: seq<T> -> Option<seq<R>>, items: seq<T>, b: nat, lo: nat):
    (r: Option<seq<R>>)
    requires b > 0 && OnePerItem(f)
    ensures r.Some? && lo <= |items| ==> |r.value| == |items| - lo
    decreases |items| - lo
  {
    if lo >= |items| then Some([])
    else
      var hi := Min(lo + b, |items|);
      match f(items[lo..hi])
      case None => None
      case Some(results) => Prepend(results, InBatches(f, items, b, hi))
  }

  /** The j-th batch of b items from `lo` on. */
  function BatchAt<T>(items: seq<T>, b: nat, lo: nat, j: nat): seq<T>
    requires lo + j * b <= |items|
  {
    items[lo + j * b..Min(lo + j * b + b, |items|)]
  }

  lemma {:induction false} SameBatch<T>(items: seq<T>, b: nat, lo: nat, j: nat)
    requires lo + b + j * b <= |items|
    ensures lo + (j + 1) * b == lo + b + j * b && BatchAt(items, b, lo + b, j) == BatchAt(items, b, lo, j + 1)
  {
    assert (j + 1) * b == j * b + b;
  }

  ghost predicate EveryBatchSucceeds<T(!new), R>(f: seq<T> -> Option<seq<R>>, items: seq<T>, b: nat, lo: nat) {
    forall j: nat :: lo + j * b < |items| ==> f(BatchAt(items, b, lo, j)).Some?
  }

  /** All batches succeed exactly when the first one and all the others do. */
  lemma {:induction false} FirstAndOthers<T(!new), R>(f: seq<T> -> Option<seq<R>>, items: seq<T>, b: nat, lo: nat)
    requires b > 0 && lo < |items|
    ensures EveryBatchSucceeds(f, items, b, lo)
       <==> f(items[lo..Min(lo + b, |items|)]).Some? && EveryBatchSucceeds(f, items, b, lo + b)
  {
    assert BatchAt(items, b, lo, 0) == items[lo..Min(lo + b, |items|)];
    if EveryBatchSucceeds(f, items, b, lo) {
      forall j: nat | lo + b + j * b < |items| ensures f(BatchAt(items, b, lo + b, j)).Some? {
        SameBatch(items, b, lo, j);
      }
    }
    if f(items[lo..Min(lo + b, |items|)]).Some? && EveryBatchSucceeds(f, items, b, lo + b) {
      forall j: nat | lo + j * b < |items| ensures f(BatchAt(items, b, lo, j)).Some? {
        if j > 0 {
          LaterBatch(items, b, lo, j);
        }
      }
    }
  }

  lemma {:induction false} LaterBatch<T>(items: seq<T>, b: nat, lo: nat, j: nat)
    requires j > 0 && lo + j * b <= |items|
    ensures lo + b + (j - 1) * b == lo + j * b && BatchAt(items, b, lo, j) == BatchAt(items, b, lo + b, j - 1)
  {
    assert j * b == (j - 1) * b + b;
    SameBatch(items, b, lo, j - 1);
  }

  /** The whole succeeds exactly when every batch does. */
  lemma {:induction false} InBatchesSucceedsIff<T(!new), R>(f: seq<T> -> Option<seq<R>>, items: seq<T>, b: nat, lo: nat)
    requires b > 0 && OnePerItem(f)
    ensures InBatches(f, items, b, lo).Some? <==> EveryBatchSucceeds(f, items, b, lo)
    decreases |items| - lo
  {
    if lo < |items| {
      InBatchesSucceedsIff(f, items, b, lo + b);
      FirstAndOthers(f, items, b, lo);
      hide EveryBatchSucceeds, OnePerItem;
      assert lo + b >= |items| ==> InBatches(f, items, b, lo + b) == InBatches(f, items, b, |items|) == Some([]);
    }
  }

  /** And then result i of the j-th batch is result j * b + i of the whole. */
  lemma {:induction false} InBatchesAtPlace<T(!new), R>(f: seq<T> -> Option<seq<R>>, items: seq<T>, b: nat, lo: nat,
                                                        j: nat, i: nat)
    requires b > 0 && OnePerItem(f) && InBatches(f, items, b, lo).Some?
    requires i < b && lo + j * b + i < |items|
    ensures f(BatchAt(items, b, lo, j)).Some? && i < |f(BatchAt(items, b, lo, j)).value|
    ensures InBatches(f, items, b, lo).value[j * b + i] == f(BatchAt(items, b, lo, j)).value[i]
    decreases |items| - lo
  {
    hide InBatches, BatchAt;
    if j == 0 {
      FirstBatch(f, items, b, lo, i);
    } else {
      LaterBatch(items, b, lo, j);
      FirstAndRest(f, items, b, lo, (j - 1) * b + i);
      InBatchesAtPlace(f, items, b, lo + b, j - 1, i);
    }
  }

  lemma {:induction false} FirstBatch<T(!new), R>(f: seq<T> -> Option<seq<R>>, items: seq<T>, b: nat, lo: nat, i: nat)
    requires b > 0 && OnePerItem(f) && InBatches(f, items, b, lo).Some? && i < b && lo + i < |items|
    ensures f(BatchAt(items, b, lo, 0)).Some? && i < |f(BatchAt(items, b, lo, 0)).value|
    ensures InBatches(f, items, b, lo).value[i] == f(BatchAt(items, b, lo, 0)).value[i]
  {
    assert BatchAt(items, b, lo, 0) == items[lo..Min(lo + b, |items|)];
  }

  lemma {:induction false} FirstAndRest<T(!new), R>(f: seq<T> -> Option<seq<R>>, items: seq<T>, b: nat, lo: nat, k: nat)
    requires b > 0 && OnePerItem(f) && InBatches(f, items, b, lo).Some? && lo + b + k < |items|
    ensures InBatches(f, items, b, lo + b).Some? && k < |InBatches(f, items, b, lo + b).value|
    ensures InBatches(f, items, b, lo).value[b + k] == InBatches(f, items, b, lo + b).value[k]
  {
  }

  /** Each item's result is its own, whatever batch it travels in. */
  ghost predicate ItemWise<T(!new), R>(f: seq<T> -> Option<seq<R>>, g: T -> R)
    requires OnePerItem(f)
  {
    forall batch, i :: 0 <= i < |batch| && f(batch).Some? ==> f(batch).value[i] == g(batch[i])
  }

  /** Then the batch size does not matter: item k gets its own result. */
  lemma {:induction false} InBatchesAt<T(!new), R>(f: seq<T> -> Option<seq<R>>, g: T -> R,
                                                   items: seq<T>, b: nat, lo: nat, i: nat)
    requires b > 0 && OnePerItem(f) && ItemWise(f, g) && lo + i < |items|
    requires InBatches(f, items, b, lo).Some?
    ensures InBatches(f, items, b, lo).value[i] == g(items[lo + i])
    decreases |items| - lo
  {
    var hi := Min(lo + b, |items|);
    if i < hi - lo {
      assert f(items[lo..hi]).value[i] == g(items[lo..hi][i]);
    } else {
      InBatchesAt(f, g, items, b, hi, i - (hi - lo));
    }
  }

  lemma {:induction false} InBatchesIsMap<T(!new), R>(f: seq<T> -> Option<seq<R>>, g: T -> R, items: seq<T>, b: nat)
    requires b > 0 && OnePerItem(f) && ItemWise(f, g)
    requires InBatches(f, items, b, 0).Some?
    ensures InBatches(f, items, b, 0).value == Map(g, items)
  {
    forall i | 0 <= i < |items| ensures InBatches(f, items, b, 0).value[i] == g(items[i]) {
      InBatchesAt(f, g, items, b, 0, i);
    }
    hide OnePerItem, ItemWise;
  }

  /** What holds of every result of every batch holds of all results. */
  lemma {:induction false} InBatchesEvery<T(!new), R>(f: seq<T> -> Option<seq<R>>, good: R -> bool,
                                                      items: seq<T>, b: nat, lo: nat)
    requires b > 0 && OnePerItem(f) && lo <= |items| && InBatches(f, items, b, lo).Some?
    requires forall batch, i :: 0 <= i < |batch| && f(batch).Some? ==> good(f(batch).value[i])
    ensures forall i :: 0 <= i < |items| - lo ==> good(InBatches(f, items, b, lo).value[i])
    decreases |items| - lo
  {
    if lo < |items| {
      var hi := Min(lo + b, |items|);
      InBatchesEvery(f, good, items, b, hi);
    }
  }

  /** One batch more: the results so far and those to come still make up the whole. */
  lemma {:induction false} NextBatch<T(!new), R>(f: seq<T> -> Option<seq<R>>, items: seq<T>, b: nat, lo: nat,
                                                 done: seq<R>)
    requires b > 0 && OnePerItem(f) && lo < |items|
    ensures var hi := Min(lo + b, |items|);
      Prepend(done, InBatches(f, items, b, lo))
      == match f(items[lo..hi])
         case None => None
         case Some(results) => Prepend(done + results, InBatches(f, items, b, hi))
  {
    var hi := Min(lo + b, |items|);
    if f(items[lo..hi]).Some? && InBatches(f, items, b, hi).Some? {
      assert done + (f(items[lo..hi]).value + InBatches(f, items, b, hi).value)
          == (done + f(items[lo..hi]).value) + InBatches(f, items, b, hi).value;
    }
  }

  lemma {:induction false} NothingDone<R>(rest: Option<seq<R>>)
    ensures Prepend([], rest) == rest
  {
    if rest.Some? {
      assert [] + rest.value == rest.value;
    }
  }

  lemma {:induction false} AllDone<T(!new), R>(f: seq<T> -> Option<seq<R>>, items: seq<T>, b: nat, done: seq<R>)
    requires b > 0 && OnePerItem(f)
    ensures Prepend(done, InBatches(f, items, b, |items|)) == Some(done)
  {
    assert done + [] == done;
  }
}
