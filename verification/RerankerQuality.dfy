/** nDCG@10 and reciprocal rank of reranker output, and their composition with the reranker. */
module RerankerQuality {
  import opened Sequences
  import opened Sorting
  import opened DiscountedGain
  import opened Status
  import RankingMetrics
  import Reranker

  type Item = Reranker.Item

  /** Whether the ranked item points at a document judged relevant; an index outside the judgments counts as not. */
  function IsRelevantItem(relevance: seq<int>): Item -> bool {
    (item: Item) => 0 <= item.index < |relevance| && relevance[item.index] > 0
  }

  function Positive(r: int): bool { r > 0 }

  function NumPositive(relevance: seq<int>): nat { CountBy(Positive, relevance) }

  function Limit(n: nat): nat { if n < 10 then n else 10 }

  /** 1/lg(0) + ... + 1/lg(n-1): the DCG of n leading hits. */
  function LeadingDcg(n: nat, lg: nat -> real): real
    requires IsLog(lg)
  {
    if n == 0 then 0.0 else LeadingDcg(n - 1, lg) + 1.0 / lg(n - 1)
  }

  /** The discounted hits of the first ten results over the best value any ten results could reach. */
  function NdcgAt10(relevance: seq<int>, results: seq<Item>, lg: nat -> real): real
    requires IsLog(lg)
  {
    var dcg := Dcg(results[..Limit(|results|)], Indicator(IsRelevantItem(relevance)), lg);
    var idcg := LeadingDcg(IdealHits(relevance, |results|), lg);
    if idcg > 0.0 then dcg / idcg else 0.0
  }

  function IdealHits(relevance: seq<int>, n: nat): nat {
    if NumPositive(relevance) < Limit(n) then NumPositive(relevance) else Limit(n)
  }

  function Value(r: int): real { r as real }

  /** The C++ metric. It reads `ideal[i]` for every i below the limit, so the judgments must be that many. */
  method ComputeNdcgAt10(relevance: seq<int>, results: seq<Item>, lg: nat -> real) returns (ndcg: real)
    requires IsLog(lg) && Limit(|results|) <= |relevance|
    ensures ndcg == NdcgAt10(relevance, results, lg)
  {
    if |results| == 0 {
      return 0.0;
    }
    var limit := Limit(|results|);
    var dcg := DcgOfResults(relevance, results[..limit], lg);
    var idcg := IdealDcg(relevance, limit, lg);
    ndcg := if idcg > 0.0 then dcg / idcg else 0.0;
  }

  method DcgOfResults(relevance: seq<int>, top: seq<Item>, lg: nat -> real) returns (dcg: real)
    requires IsLog(lg)
    ensures dcg == Dcg(top, Indicator(IsRelevantItem(relevance)), lg)
  {
    dcg := 0.0;
    for i := 0 to |top|
      invariant dcg == Dcg(top[..i], Indicator(IsRelevantItem(relevance)), lg)
    {
      assert top[..i + 1][..i] == top[..i];
      var idx := top[i].index;
      if 0 <= idx < |relevance| {
        dcg := dcg + if relevance[idx] > 0 then 1.0 / lg(i) else 0.0;
      }
    }
    assert top[..|top|] == top;
  }

  /** Copies the judgments, sorts the copy in descending order and discounts its positive entries. */
  method IdealDcg(relevance: seq<int>, limit: nat, lg: nat -> real) returns (idcg: real)
    requires IsLog(lg) && limit <= |relevance|
    ensures idcg == LeadingDcg(if NumPositive(relevance) < limit then NumPositive(relevance) else limit, lg)
  {
    var ideal := new int[|relevance|];
    for i := 0 to |relevance|
      invariant ideal[..i] == relevance[..i]
    {
      ideal[i] := relevance[i];
    }
    assert ideal[..] == relevance;
    SortInPlace(ideal, Value);
    ghost var sorted := ideal[..];
    CountPermutation(Positive, sorted, relevance);
    idcg := 0.0;
    for i := 0 to limit
      invariant ideal[..] == sorted
      invariant idcg == LeadingDcg(if NumPositive(relevance) < i then NumPositive(relevance) else i, lg)
    {
      SortedPositive(sorted, i);
      assert ideal[i] == sorted[i];
      idcg := idcg + if ideal[i] > 0 then 1.0 / lg(i) else 0.0;
    }
  }

  /** In descending order the positive values come first. */
  lemma {:induction false} SortedPositive(ideal: seq<int>, i: nat)
    requires SortedDesc(ideal, Value) && i < |ideal|
    ensures ideal[i] > 0 <==> i < NumPositive(ideal)
    decreases |ideal|
  {
    var n := |ideal| - 1;
    if ideal[n] > 0 {
      AllPositive(ideal);
    } else if i < n {
      SortedPositive(ideal[..n], i);
    } else {
      assert NumPositive(ideal) == NumPositive(ideal[..n]);
    }
  }

  lemma {:induction false} AllPositive(ideal: seq<int>)
    requires forall i :: 0 <= i < |ideal| ==> Value(ideal[i]) >= Value(ideal[|ideal| - 1])
    requires ideal != [] ==> ideal[|ideal| - 1] > 0
    ensures NumPositive(ideal) == |ideal|
  {
    forall i | 0 <= i < |ideal| ensures Positive(ideal[i]) {
      assert Value(ideal[i]) >= Value(ideal[|ideal| - 1]);
    }
    CountAll(ideal);
  }

  lemma {:induction false} CountAll(s: seq<int>)
    requires forall i :: 0 <= i < |s| ==> Positive(s[i])
    ensures NumPositive(s) == |s|
  {
    if s != [] {
      CountAll(s[..|s| - 1]);
    }
  }

  ghost predicate DistinctIndices(results: seq<Item>) {
    forall i, j :: 0 <= i < j < |results| ==> results[i].index != results[j].index
  }

  /** The documents the results hit. */
  ghost function HitIndices(relevance: seq<int>, results: seq<Item>): set<int> {
    if results == [] then {}
    else
      var n := |results| - 1;
      HitIndices(relevance, results[..n])
      + (if IsRelevantItem(relevance)(results[n]) then {results[n].index} else {})
  }

  ghost function PositiveIndices(relevance: seq<int>): set<int> {
    set d | 0 <= d < |relevance| && relevance[d] > 0
  }

  lemma {:induction false} HitIndexSource(relevance: seq<int>, results: seq<Item>, x: int)
    requires x in HitIndices(relevance, results)
    ensures x in PositiveIndices(relevance)
    ensures exists i :: 0 <= i < |results| && results[i].index == x
  {
    var n := |results| - 1;
    if x in HitIndices(relevance, results[..n]) {
      HitIndexSource(relevance, results[..n], x);
      var i :| 0 <= i < n && results[..n][i].index == x;
      assert results[i].index == x;
    } else {
      assert results[n].index == x;
    }
  }

  lemma {:induction false} HitIndicesCount(relevance: seq<int>, results: seq<Item>)
    requires DistinctIndices(results)
    ensures |HitIndices(relevance, results)| == CountBy(IsRelevantItem(relevance), results)
  {
    if results != [] {
      var n := |results| - 1;
      HitIndicesCount(relevance, results[..n]);
      if results[n].index in HitIndices(relevance, results[..n]) {
        HitIndexSource(relevance, results[..n], results[n].index);
        assert false;
      }
    }
  }

  lemma {:induction false} PositiveIndicesCount(relevance: seq<int>)
    ensures |PositiveIndices(relevance)| == NumPositive(relevance)
  {
    if relevance != [] {
      var n := |relevance| - 1;
      var front := PositiveIndices(relevance[..n]);
      PositiveIndicesCount(relevance[..n]);
      if relevance[n] > 0 {
        assert PositiveIndices(relevance) == front + {n};
      } else {
        assert PositiveIndices(relevance) == front;
      }
    }
  }

  /** Distinct ranked indices never hit more relevant documents than there are. */
  lemma {:induction false} HitsAtMostPositives(relevance: seq<int>, results: seq<Item>)
    requires DistinctIndices(results)
    ensures CountBy(IsRelevantItem(relevance), results) <= NumPositive(relevance)
  {
    HitIndicesCount(relevance, results);
    PositiveIndicesCount(relevance);
    forall x | x in HitIndices(relevance, results) ensures x in PositiveIndices(relevance) {
      HitIndexSource(relevance, results, x);
    }
    SubsetCardinality(HitIndices(relevance, results), PositiveIndices(relevance));
  }

  /** The ideal hit pattern: `hits` hits, then misses. */
  function LeadingHits(hits: nat, n: nat): seq<bool> { seq(n, i => i < hits) }

  /** One point per hit, none per miss. */
  function HitValue(h: bool): real { if h then 1.0 else 0.0 }

  lemma {:induction false} LeadingHitsSum(hits: nat, n: nat, j: nat)
    requires j <= n
    ensures SumBy(LeadingHits(hits, n)[..j], HitValue) == (if hits < j then hits else j) as real
  {
    if j > 0 {
      var prefix := LeadingHits(hits, n)[..j];
      LeadingHitsSum(hits, n, j - 1);
      assert prefix[..j - 1] == LeadingHits(hits, n)[..j - 1];
      assert prefix[j - 1] == (j - 1 < hits);
    }
  }

  lemma {:induction false} LeadingHitsDcg(hits: nat, n: nat, j: nat, lg: nat -> real)
    requires IsLog(lg) && j <= n
    ensures Dcg(LeadingHits(hits, n)[..j], HitValue, lg) == LeadingDcg(if hits < j then hits else j, lg)
  {
    if j > 0 {
      var prefix := LeadingHits(hits, n)[..j];
      LeadingHitsDcg(hits, n, j - 1, lg);
      assert prefix[..j - 1] == LeadingHits(hits, n)[..j - 1];
      assert prefix[j - 1] == (j - 1 < hits);
      assert Discounted(HitValue(prefix[j - 1]), lg(j - 1)) == if j - 1 < hits then 1.0 / lg(j - 1) else 0.0;
    }
  }

  lemma {:induction false} LeadingHitsDominate(relevance: seq<int>, results: seq<Item>, lg: nat -> real)
    requires IsLog(lg) && DistinctIndices(results[..Limit(|results|)])
    ensures Dominates(LeadingHits(IdealHits(relevance, |results|), Limit(|results|)), HitValue,
                      results[..Limit(|results|)], Indicator(IsRelevantItem(relevance)))
  {
    var n, hits := Limit(|results|), IdealHits(relevance, |results|);
    var top := results[..n];
    forall j | 0 <= j <= n
      ensures SumBy(top[..j], Indicator(IsRelevantItem(relevance)))
           <= SumBy(LeadingHits(hits, n)[..j], HitValue)
    {
      LeadingHitsSum(hits, n, j);
      CountIsSum(IsRelevantItem(relevance), top[..j]);
      HitsAtMostPositives(relevance, top[..j]);
    }
  }

  /** With distinct indices in the places it reads the metric is in [0, 1], and when something relevant exists it is 1
      exactly when the leading places are all taken by relevant documents. */
  lemma {:induction false} NdcgAt10Range(relevance: seq<int>, results: seq<Item>, lg: nat -> real)
    requires IsLog(lg) && DistinctIndices(results[..Limit(|results|)])
    ensures 0.0 <= NdcgAt10(relevance, results, lg) <= 1.0
    ensures IdealHits(relevance, |results|) > 0 ==>
      (NdcgAt10(relevance, results, lg) == 1.0 <==>
        forall i :: 0 <= i < IdealHits(relevance, |results|) ==> IsRelevantItem(relevance)(results[i]))
  {
    var n, hits := Limit(|results|), IdealHits(relevance, |results|);
    var top, ideal := results[..n], LeadingHits(hits, n);
    var gain, unit := Indicator(IsRelevantItem(relevance)), HitValue;
    LeadingHitsDominate(relevance, results, lg);
    DominatedDcg(ideal, unit, top, gain, lg);
    DcgNonNegative(top, gain, lg);
    LeadingHitsDcg(hits, n, n, lg);
    assert ideal[..n] == ideal;
    LeadingDcgPositive(hits, lg);
    RankingMetrics.RatioInUnitInterval(Dcg(top, gain, lg), LeadingDcg(hits, lg));
    if hits > 0 {
      RankingMetrics.RatioIsOne(Dcg(top, gain, lg), LeadingDcg(hits, lg));
      if forall i :: 0 <= i < hits ==> IsRelevantItem(relevance)(results[i]) {
        AllHitsThenNone(relevance, results, lg);
      }
      if NdcgAt10(relevance, results, lg) == 1.0 {
        forall i | 0 <= i < hits ensures IsRelevantItem(relevance)(results[i]) {
          assert gain(top[i]) == unit(ideal[i]);
        }
      }
    }
  }

  lemma LeadingDcgPositive(n: nat, lg: nat -> real)
    requires IsLog(lg)
    ensures LeadingDcg(n, lg) >= 0.0 && (n > 0 <==> LeadingDcg(n, lg) > 0.0)
  {
    if n > 0 {
      LeadingDcgPositive(n - 1, lg);
    }
  }

  /** When the ideal number of hits leads, the remaining places up to the limit hold none. */
  lemma {:induction false} AllHitsThenNone(relevance: seq<int>, results: seq<Item>, lg: nat -> real)
    requires IsLog(lg) && DistinctIndices(results[..Limit(|results|)])
    requires forall i :: 0 <= i < IdealHits(relevance, |results|) ==> IsRelevantItem(relevance)(results[i])
    ensures Dcg(results[..Limit(|results|)], Indicator(IsRelevantItem(relevance)), lg)
         == LeadingDcg(IdealHits(relevance, |results|), lg)
  {
    var n, hits := Limit(|results|), IdealHits(relevance, |results|);
    var ideal := LeadingHits(hits, n);
    var gain, unit := Indicator(IsRelevantItem(relevance)), HitValue;
    forall i | 0 <= i < n ensures gain(results[..n][i]) == unit(ideal[i]) {
      assert ideal[i] == (i < hits);
      assert results[..n][i] == results[i];
      if hits <= i {
        NoHitBeyond(relevance, results, i);
      }
    }
    DcgOfEqualGains(ideal, HitValue, results[..n], Indicator(IsRelevantItem(relevance)), lg);
    LeadingHitsDcg(hits, n, n, lg);
    assert ideal[..n] == ideal;
  }

  lemma {:induction false} NoHitBeyond(relevance: seq<int>, results: seq<Item>, i: nat)
    requires DistinctIndices(results[..Limit(|results|)])
    requires IdealHits(relevance, |results|) <= i < Limit(|results|)
    requires forall j :: 0 <= j < IdealHits(relevance, |results|) ==> IsRelevantItem(relevance)(results[j])
    ensures !IsRelevantItem(relevance)(results[i])
  {
    var hits := IdealHits(relevance, |results|);
    if IsRelevantItem(relevance)(results[i]) {
      CountLeading(relevance, results, hits);
      assert results[..i + 1] == results[..hits] + results[hits..i] + [results[i]];
      CountConcat(IsRelevantItem(relevance), results[..hits] + results[hits..i], [results[i]]);
      CountConcat(IsRelevantItem(relevance), results[..hits], results[hits..i]);
      assert results[..i + 1] == results[..Limit(|results|)][..i + 1];
      HitsAtMostPositives(relevance, results[..i + 1]);
      assert false;
    }
  }

  lemma {:induction false} CountLeading(relevance: seq<int>, results: seq<Item>, n: nat)
    requires n <= |results| && forall i :: 0 <= i < n ==> IsRelevantItem(relevance)(results[i])
    ensures CountBy(IsRelevantItem(relevance), results[..n]) == n
  {
    if n > 0 {
      CountLeading(relevance, results, n - 1);
      assert results[..n][..n - 1] == results[..n - 1];
    }
  }

  /** Reranker output (any permutation of the (index, score) pairs) always scores in [0, 1]. */
  lemma {:induction false} RerankedNdcgInUnitInterval(relevance: seq<int>, scores: seq<real>, items: seq<Item>,
                                                      lg: nat -> real)
    requires IsLog(lg) && multiset(items) == multiset(Reranker.Pairs(scores))
    ensures 0.0 <= NdcgAt10(relevance, items, lg) <= 1.0
  {
    Reranker.PermutedPairsAreDistinct(items, scores);
    NdcgAt10Range(relevance, items, lg);
  }

  // ----- the metric as a quotient of two sums -----

  /** What place i adds: its discount when it names a document judged relevant. */
  function HitAt(relevance: seq<int>, results: seq<Item>, lg: nat -> real): nat -> real
    requires IsLog(lg)
  {
    (i: nat) =>
      if i < |results| && 0 <= results[i].index < |relevance| && relevance[results[i].index] > 0 then 1.0 / lg(i)
      else 0.0
  }

  function InverseLog(lg: nat -> real): nat -> real
    requires IsLog(lg)
  {
    (i: nat) => 1.0 / lg(i)
  }

  lemma {:induction false} LeadingIsSum(n: nat, lg: nat -> real)
    requires IsLog(lg)
    ensures LeadingDcg(n, lg) == SumBy(UpTo(n), InverseLog(lg))
  {
    if n > 0 {
      LeadingIsSum(n - 1, lg);
      SumUpTo(n, InverseLog(lg), InverseLog(lg));
    }
  }

  lemma HitAtPlace(relevance: seq<int>, results: seq<Item>, i: nat, lg: nat -> real)
    requires IsLog(lg) && i < |results|
    ensures HitAt(relevance, results, lg)(i) == Discounted(Indicator(IsRelevantItem(relevance))(results[i]), lg(i))
  {
  }

  lemma {:induction false} HitsAddUp(relevance: seq<int>, results: seq<Item>, n: nat, lg: nat -> real)
    requires IsLog(lg) && n <= |results|
    ensures Dcg(results[..n], Indicator(IsRelevantItem(relevance)), lg) == SumBy(UpTo(n), HitAt(relevance, results, lg))
  {
    hide HitAt, Discounted, Indicator, IsRelevantItem, IsLog;
    if n > 0 {
      HitsAddUp(relevance, results, n - 1, lg);
      SumUpTo(n, HitAt(relevance, results, lg), HitAt(relevance, results, lg));
      HitAtPlace(relevance, results, n - 1, lg);
      assert results[..n][..n - 1] == results[..n - 1] && results[..n][n - 1] == results[n - 1];
      DcgSnoc(results[..n], Indicator(IsRelevantItem(relevance)), lg);
    } else {
      assert results[..0] == [] && UpTo(0) == [];
    }
  }

  /** The metric times the discounts of the leading min(10, places, relevant documents) ranks is the sum of the
      discounts of the hits among the first ten places; it is 0 when nothing is relevant or there are no results. */
  lemma {:induction false} NdcgAt10Is(relevance: seq<int>, results: seq<Item>, lg: nat -> real, top: nat, most: nat)
    requires IsLog(lg) && top == Min(|results|, 10)
    requires most == Min(top, |set d | 0 <= d < |relevance| && relevance[d] > 0|)
    ensures most > 0 ==>
      NdcgAt10(relevance, results, lg) * SumBy(UpTo(most), InverseLog(lg))
      == SumBy(UpTo(top), HitAt(relevance, results, lg))
    ensures most == 0 ==> NdcgAt10(relevance, results, lg) == 0.0
  {
    hide Dcg, LeadingDcg, SumBy, HitAt, InverseLog, IdealHits, Limit, IsRelevantItem, IsLog, NdcgAt10;
    MostIs(relevance, results, top, most);
    LeadingIsSum(most, lg);
    LeadingDcgPositive(most, lg);
    HitsAddUp(relevance, results, top, lg);
    MetricTimes(relevance, results, lg, SumBy(UpTo(top), HitAt(relevance, results, lg)),
                SumBy(UpTo(most), InverseLog(lg)));
  }

  lemma {:induction false} MostIs(relevance: seq<int>, results: seq<Item>, top: nat, most: nat)
    requires top == Min(|results|, 10)
    requires most == Min(top, |set d | 0 <= d < |relevance| && relevance[d] > 0|)
    ensures most == IdealHits(relevance, |results|) && top == Limit(|results|)
  {
    PositiveIndicesCount(relevance);
  }

  lemma {:induction false} MetricTimes(relevance: seq<int>, results: seq<Item>, lg: nat -> real, sum: real, best: real)
    requires IsLog(lg) && best == LeadingDcg(IdealHits(relevance, |results|), lg)
    requires sum == Dcg(results[..Limit(|results|)], Indicator(IsRelevantItem(relevance)), lg)
    ensures best > 0.0 ==> NdcgAt10(relevance, results, lg) * best == sum
    ensures best <= 0.0 ==> NdcgAt10(relevance, results, lg) == 0.0
  {
    NdcgAt10IsShare(relevance, results, lg);
    hide Dcg, LeadingDcg, IdealHits, Limit, IsRelevantItem, IsLog, NdcgAt10;
    hide RankingMetrics.Share;
    ShareUndone(NdcgAt10(relevance, results, lg), sum, best);
  }

  lemma NdcgAt10IsShare(relevance: seq<int>, results: seq<Item>, lg: nat -> real)
    requires IsLog(lg)
    ensures NdcgAt10(relevance, results, lg)
         == RankingMetrics.Share(Dcg(results[..Limit(|results|)], Indicator(IsRelevantItem(relevance)), lg),
                                 LeadingDcg(IdealHits(relevance, |results|), lg))
  {
  }

  lemma ShareUndone(share: real, x: real, y: real)
    requires share == RankingMetrics.Share(x, y)
    ensures y > 0.0 ==> share * y == x
    ensures y <= 0.0 ==> share == 0.0
  {
  }

  // ----- repeated indices -----

  ghost predicate NonNegative(results: seq<Item>) {
    forall i :: 0 <= i < |results| ==> results[i].index >= 0
  }

  ghost function Indices(results: seq<Item>): set<int> {
    set i | 0 <= i < |results| :: results[i].index
  }

  function LargestIndex(results: seq<Item>): (m: int)
    ensures forall i :: 0 <= i < |results| ==> results[i].index <= m
  {
    if results == [] then 0
    else
      var front := LargestIndex(results[..|results| - 1]);
      if results[|results| - 1].index > front then results[|results| - 1].index else front
  }

  /** Judgments for at least `size` documents under which exactly the listed documents are relevant. */
  ghost function OnlyListed(results: seq<Item>, size: nat): (relevance: seq<int>)
    ensures |relevance| >= size
    ensures NonNegative(results) ==> PositiveIndices(relevance) == Indices(results)
  {
    var largest := LargestIndex(results);
    var n := if largest + 1 > size then largest + 1 else size;
    var relevance := seq(n, d => if d in Indices(results) then 1 else 0);
    assert NonNegative(results) ==> PositiveIndices(relevance) == Indices(results);
    relevance
  }

  lemma {:induction false} IndicesSize(results: seq<Item>)
    ensures |Indices(results)| <= |results|
  {
    if results == [] {
      assert Indices(results) == {};
    } else {
      var n := |results| - 1;
      IndicesSize(results[..n]);
      assert Indices(results) == Indices(results[..n]) + {results[n].index};
    }
  }

  /** A repeated index makes the documents fewer than the places. */
  lemma {:induction false} RepeatedIndices(results: seq<Item>, i: nat, j: nat)
    requires i < j < |results| && results[i].index == results[j].index
    ensures |Indices(results)| < |results|
  {
    var rest := results[..j] + results[j + 1..];
    IndicesSize(rest);
    forall x | x in Indices(results) ensures x in Indices(rest) {
      var k :| 0 <= k < |results| && results[k].index == x;
      var k' := if k == j then i else if k < j then k else k - 1;
      assert rest[k'].index == x;
    }
    SubsetCardinality(Indices(results), Indices(rest));
  }

  lemma {:induction false} LeadingDcgGrows(p: nat, n: nat, lg: nat -> real)
    requires IsLog(lg) && p < n
    ensures LeadingDcg(p, lg) < LeadingDcg(n, lg)
  {
    if p < n - 1 {
      LeadingDcgGrows(p, n - 1, lg);
    }
  }

  /** A list of hits only gains what that many leading hits gain. */
  lemma {:induction false} AllHitsDcg(relevance: seq<int>, top: seq<Item>, lg: nat -> real)
    requires IsLog(lg) && forall i :: 0 <= i < |top| ==> IsRelevantItem(relevance)(top[i])
    ensures Dcg(top, Indicator(IsRelevantItem(relevance)), lg) == LeadingDcg(|top|, lg)
  {
    if top != [] {
      AllHitsDcg(relevance, top[..|top| - 1], lg);
    }
  }

  /** When a place that is read repeats an index, the judgments under which just the listed documents are relevant
      give a value above 1: there are more hits than relevant documents. */
  lemma {:induction false} RepeatedIndexExceedsOne(results: seq<Item>, lg: nat -> real)
    requires IsLog(lg) && NonNegative(results[..Limit(|results|)]) && !DistinctIndices(results[..Limit(|results|)])
    ensures NdcgAt10(OnlyListed(results[..Limit(|results|)], Limit(|results|)), results, lg) > 1.0
  {
    var n := Limit(|results|);
    var top := results[..n];
    var relevance := OnlyListed(top, n);
    var i, j :| 0 <= i < j < n && top[i].index == top[j].index;
    RepeatedIndices(top, i, j);
    PositiveIndicesCount(relevance);
    assert top[0].index in Indices(top);
    var p := NumPositive(relevance);
    forall k | 0 <= k < n ensures IsRelevantItem(relevance)(top[k]) {
      assert top[k].index in PositiveIndices(relevance);
    }
    AllHitsDcg(relevance, top, lg);
    LeadingDcgPositive(p, lg);
    LeadingDcgGrows(p, n, lg);
    RankingMetrics.RatioGrows(LeadingDcg(p, lg), LeadingDcg(n, lg), LeadingDcg(p, lg));
    RankingMetrics.RatioIsOne(LeadingDcg(p, lg), LeadingDcg(p, lg));
  }

  /** Distinctness in the places that are read is exactly what carries the bound: a list scores at most 1 under all
      judgments if and only if it does not repeat a document there. */
  lemma {:induction false} NdcgAt10BoundedIff(results: seq<Item>, lg: nat -> real)
    requires IsLog(lg) && NonNegative(results[..Limit(|results|)])
    ensures (forall relevance :: |relevance| >= Limit(|results|) ==> NdcgAt10(relevance, results, lg) <= 1.0)
       <==> DistinctIndices(results[..Limit(|results|)])
  {
    if DistinctIndices(results[..Limit(|results|)]) {
      forall relevance ensures NdcgAt10(relevance, results, lg) <= 1.0 {
        NdcgAt10Range(relevance, results, lg);
      }
    } else {
      RepeatedIndexExceedsOne(results, lg);
    }
  }

  method ComputeMrr(relevance: seq<int>, results: seq<Item>) returns (mrr: real)
    ensures mrr == RankingMetrics.ReciprocalRank(Map(IsRelevantItem(relevance), results))
  {
    ghost var hits := Map(IsRelevantItem(relevance), results);
    for i := 0 to |results|
      invariant forall j :: 0 <= j < i ==> !hits[j]
    {
      var idx := results[i].index;
      if 0 <= idx < |relevance| && relevance[idx] > 0 {
        assert hits[i] && RankingMetrics.FirstHit(hits) == i;
        return 1.0 / (i + 1) as real;
      }
    }
    return 0.0;
  }

  /** What one query's call may return: on success any descending order of the pairs, otherwise no results. */
  ghost predicate IsRanking(ctx: Reranker.Context, query: string, documents: seq<string>, nBatch: int, items: seq<Item>)
    requires ctx.Valid()
  {
    if documents == [] || ctx.Scores(query, documents, nBatch).None? then items == []
    else
      && SortedDesc(items, Reranker.ItemScore)
      && multiset(items) == multiset(Reranker.Pairs(ctx.Scores(query, documents, nBatch).value))
  }

  function HitRank(relevance: seq<int>, items: seq<Item>): real {
    RankingMetrics.ReciprocalRank(Map(IsRelevantItem(relevance), items))
  }

  lemma {:induction false} ReciprocalRankRange(hits: seq<bool>)
    ensures 0.0 <= RankingMetrics.ReciprocalRank(hits) <= 1.0
  {
    RankingMetrics.RatioInUnitInterval(1.0, (RankingMetrics.FirstHit(hits) + 1) as real);
  }

  /** One query of the quality run: rerank, then measure. A failed call contributes nothing. */
  method MeasureQuery(ctx: Reranker.Context, query: string, documents: seq<string>, relevance: seq<int>, nBatch: int,
                      lg: nat -> real)
    returns (ndcg: real, mrr: real, ghost ranking: seq<Item>)
    requires ctx.Valid() && IsLog(lg) && Limit(|documents|) <= |relevance|
    modifies ctx
    ensures IsRanking(ctx, query, documents, nBatch, ranking)
    ensures ndcg == NdcgAt10(relevance, ranking, lg) && mrr == HitRank(relevance, ranking)
    ensures 0.0 <= ndcg <= 1.0 && 0.0 <= mrr <= 1.0
  {
    var status, items := ctx.Rerank(query, documents, nBatch);
    ndcg, mrr, ranking := 0.0, 0.0, [];
    if status.Ok? {
      ghost var scores := ctx.Scores(query, documents, nBatch).value;
      ranking := items[..];
      Reranker.PermutedPairsAreDistinct(items[..], scores);
      ndcg := ComputeNdcgAt10(relevance, items[..], lg);
      mrr := ComputeMrr(relevance, items[..]);
      RerankedNdcgInUnitInterval(relevance, scores, items[..], lg);
      ReciprocalRankRange(Map(IsRelevantItem(relevance), items[..]));
    }
  }

  /** The metrics summed over the queries. */
  ghost function TotalNdcg(rankings: seq<seq<Item>>, relevance: seq<seq<int>>, lg: nat -> real): real
    requires IsLog(lg) && |rankings| <= |relevance|
  {
    if rankings == [] then 0.0
    else
      var n := |rankings| - 1;
      TotalNdcg(rankings[..n], relevance, lg) + NdcgAt10(relevance[n], rankings[n], lg)
  }

  ghost function TotalMrr(rankings: seq<seq<Item>>, relevance: seq<seq<int>>): real
    requires |rankings| <= |relevance|
  {
    if rankings == [] then 0.0
    else
      var n := |rankings| - 1;
      TotalMrr(rankings[..n], relevance) + HitRank(relevance[n], rankings[n])
  }

  /** What query q adds to the two totals. */
  function NdcgOf(rankings: seq<seq<Item>>, relevance: seq<seq<int>>, lg: nat -> real): nat -> real
    requires IsLog(lg)
  {
    (q: nat) => if q < |rankings| && q < |relevance| then NdcgAt10(relevance[q], rankings[q], lg) else 0.0
  }

  function HitRankOf(rankings: seq<seq<Item>>, relevance: seq<seq<int>>): nat -> real {
    (q: nat) => if q < |rankings| && q < |relevance| then HitRank(relevance[q], rankings[q]) else 0.0
  }

  /** The totals are the sums over all queries. */
  lemma {:induction false} TotalsAre(rankings: seq<seq<Item>>, relevance: seq<seq<int>>, lg: nat -> real)
    requires IsLog(lg) && |rankings| <= |relevance|
    ensures TotalNdcg(rankings, relevance, lg) == SumBy(UpTo(|rankings|), NdcgOf(rankings, relevance, lg))
    ensures TotalMrr(rankings, relevance) == SumBy(UpTo(|rankings|), HitRankOf(rankings, relevance))
  {
    hide NdcgAt10, HitRank;
    if rankings != [] {
      var n := |rankings| - 1;
      TotalsAre(rankings[..n], relevance, lg);
      SumUpTo(n + 1, NdcgOf(rankings, relevance, lg), NdcgOf(rankings[..n], relevance, lg));
      SumUpTo(n + 1, HitRankOf(rankings, relevance), HitRankOf(rankings[..n], relevance));
    }
  }

  /** The quality run: both averages over the queries are in [0, 1], whatever the model and whichever calls fail.
      None stands for the NaN of zero divided by zero, when there are no queries. */
  method MeasureQuality(ctx: Reranker.Context, queries: seq<string>, documents: seq<string>,
                        relevance: seq<seq<int>>, nBatch: int, lg: nat -> real)
    returns (averages: Option<(real, real)>, ghost rankings: seq<seq<Item>>)
    requires ctx.Valid() && IsLog(lg) && |relevance| == |queries|
    requires forall q :: 0 <= q < |queries| ==> Limit(|documents|) <= |relevance[q]|
    modifies ctx
    ensures |rankings| == |queries|
    ensures forall q :: 0 <= q < |queries| ==> IsRanking(ctx, queries[q], documents, nBatch, rankings[q])
    ensures averages == if queries == [] then None
                        else Some((TotalNdcg(rankings, relevance, lg) / |queries| as real,
                                   TotalMrr(rankings, relevance) / |queries| as real))
    ensures averages.Some? ==> 0.0 <= averages.value.0 <= 1.0 && 0.0 <= averages.value.1 <= 1.0
  {
    hide IsRanking, NdcgAt10, HitRank;
    var totalNdcg, totalMrr := 0.0, 0.0;
    rankings := [];
    for q := 0 to |queries|
      invariant |rankings| == q
      invariant forall p :: 0 <= p < q ==> IsRanking(ctx, queries[p], documents, nBatch, rankings[p])
      invariant totalNdcg == TotalNdcg(rankings, relevance, lg) && 0.0 <= totalNdcg <= q as real
      invariant totalMrr == TotalMrr(rankings, relevance) && 0.0 <= totalMrr <= q as real
    {
      var n, m;
      ghost var ranking;
      n, m, ranking := MeasureQuery(ctx, queries[q], documents, relevance[q], nBatch, lg);
      assert (rankings + [ranking])[..q] == rankings;
      rankings := rankings + [ranking];
      totalNdcg, totalMrr := totalNdcg + n, totalMrr + m;
    }
    if |queries| == 0 {
      return None, rankings;
    }
    RankingMetrics.RatioInUnitInterval(totalNdcg, |queries| as real);
    RankingMetrics.RatioInUnitInterval(totalMrr, |queries| as real);
    averages := Some((totalNdcg / |queries| as real, totalMrr / |queries| as real));
  }
}
