/** Contiguous batch ranges (detail/batch.hpp). */
module Batching {

  datatype BatchRange = BatchRange(start: int, end: int)

  function BatchCount(total: nat, batchSize: int): (r: nat)
    requires total > 0 || batchSize > 0
  {
    var b := if batchSize <= 0 then total else batchSize;
    (total + b - 1) / b
  }

  function GetBatch(index: nat, total: nat, batchSize: int): BatchRange {
    var b := if batchSize <= 0 then total else batchSize;
    BatchRange(index * b, if index * b + b < total then index * b + b else total)
  }

  /** The batch that position `k` falls into. */
  function BatchOf(k: nat, total: nat, batchSize: int): nat
    requires k < total
  {
    k / (if batchSize <= 0 then total else batchSize)
  }

  lemma DivideBounds(n: nat, b: nat)
    requires b > 0
    ensures n / b * b <= n < (n / b + 1) * b
  {
  }

  /** How many whole b fit into k, by subtracting. */
  function Times(k: nat, b: nat): (q: nat)
    requires b > 0
    ensures q * b <= k < q * b + b
  {
    if k < b then 0
    else
      var rest := Times(k - b, b);
      assert (rest + 1) * b == rest * b + b;
      rest + 1
  }

  lemma {:induction false} TimesIs(k: nat, b: nat, q: nat)
    requires b > 0 && q * b <= k < q * b + b
    ensures Times(k, b) == q
  {
    if q > 0 {
      assert q * b == (q - 1) * b + b;
      TimesIs(k - b, b, q - 1);
    }
  }

  lemma {:induction false} QuotientUnique(k: nat, b: nat, q: nat)
    requires b > 0 && q * b <= k < (q + 1) * b
    ensures k / b == q
  {
    DivideBounds(k, b);
  }

  lemma Product(x: nat, y: nat, b: nat)
    requires x <= y
    ensures x * b <= y * b
  {
  }

  /** What the quotients mean: c batches of b cover n, and c - 1 do not. */
  lemma {:induction false} CeilingBounds(n: nat, b: nat, i: nat)
    requires b > 0
    ensures var c := (n + b - 1) / b;
      && (i < c ==> i * b < n)
      && (i >= c ==> i * b >= n)
  {
    var c := (n + b - 1) / b;
    DivideBounds(n + b - 1, b);
    assert (c + 1) * b == c * b + b;
    if i < c {
      Product(i + 1, c, b);
      assert (i + 1) * b == i * b + b;
    } else {
      Product(c, i, b);
    }
  }

  /** The batches tile [0, total): they start at 0, abut, are never empty and end at `total`. */
  lemma {:induction false} BatchesTile(total: nat, batchSize: int, i: nat)
    requires total > 0 && i < BatchCount(total, batchSize)
    ensures GetBatch(0, total, batchSize).start == 0
    ensures GetBatch(i, total, batchSize).start < GetBatch(i, total, batchSize).end <= total
    ensures if i + 1 < BatchCount(total, batchSize)
            then GetBatch(i, total, batchSize).end == GetBatch(i + 1, total, batchSize).start
            else GetBatch(i, total, batchSize).end == total
  {
    var b := if batchSize <= 0 then total else batchSize;
    CeilingBounds(total, b, i);
    CeilingBounds(total, b, i + 1);
    assert (i + 1) * b == i * b + b;
  }

  lemma {:induction false} BelowCount(n: nat, b: nat, i: nat)
    requires b > 0 && i * b < n
    ensures i < (n + b - 1) / b
  {
    CeilingBounds(n, b, i);
  }

  lemma {:induction false} QuotientInRange(n: nat, b: nat, k: nat)
    requires b > 0 && k < n
    ensures k / b < (n + b - 1) / b
  {
    assert k / b * b < n by {
      DivideBounds(k, b);
    }
    BelowCount(n, b, k / b);
  }

  lemma {:induction false} QuotientIff(k: nat, b: nat, i: nat)
    requires b > 0
    ensures i * b <= k < i * b + b <==> i == k / b
  {
    DivideBounds(k, b);
    assert (i + 1) * b == i * b + b;
    if i * b <= k < (i + 1) * b {
      QuotientUnique(k, b, i);
    }
  }

  /** Every position lies in exactly one batch. */
  lemma {:induction false} InOneBatch(total: nat, batchSize: int, i: nat, k: nat)
    requires total > 0 && i < BatchCount(total, batchSize) && k < total
    ensures BatchOf(k, total, batchSize) < BatchCount(total, batchSize)
    ensures GetBatch(i, total, batchSize).start <= k < GetBatch(i, total, batchSize).end
       <==> i == BatchOf(k, total, batchSize)
  {
    var b := if batchSize <= 0 then total else batchSize;
    QuotientInRange(total, b, k);
    QuotientIff(k, b, i);
  }

  /** Where batch i starts, by adding up: the reference the closed forms are checked against. */
  function StartOf(total: nat, b: nat, i: nat): (r: nat)
    ensures r <= total
  {
    if i == 0 then 0
    else
      var previous := StartOf(total, b, i - 1);
      if previous + b < total then previous + b else total
  }

  lemma {:induction false} StartOfIsProduct(total: nat, b: nat, i: nat)
    ensures StartOf(total, b, i) == if i * b < total then i * b else total
  {
    if i > 0 {
      StartOfIsProduct(total, b, i - 1);
      assert i * b == (i - 1) * b + b;
    }
  }

  /** The number of batches, as a loop uses it: the batches before it are not empty and end at `total`. */
  method CountBatches(total: nat, b: nat) returns (count: nat)
    requires total > 0 && b > 0
    ensures count == BatchCount(total, b) && StartOf(total, b, count) == total
    ensures forall i :: 0 <= i < count ==> StartOf(total, b, i) < total
  {
    count := BatchCount(total, b);
    CeilingBounds(total, b, count);
    StartOfIsProduct(total, b, count);
    forall i | 0 <= i < count ensures StartOf(total, b, i) < total {
      CeilingBounds(total, b, i);
      StartOfIsProduct(total, b, i);
    }
  }

  method RangeOf(i: nat, total: nat, b: nat) returns (range: BatchRange)
    requires b > 0 && StartOf(total, b, i) < total
    ensures range == BatchRange(StartOf(total, b, i), StartOf(total, b, i + 1))
    ensures range.end == if range.start + b < total then range.start + b else total
  {
    range := GetBatch(i, total, b);
    StartOfIsProduct(total, b, i);
    StartOfIsProduct(total, b, i + 1);
    assert (i + 1) * b == i * b + b;
  }
}
