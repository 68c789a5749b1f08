/** The Python ranking metrics: DCG, NDCG@k, MRR, Recall@k and average precision. */
module RankingMetrics {
  import opened Sequences
  import opened Sorting
  import opened DiscountedGain

  /** One (score, relevance) pair. */
  datatype Judged = Judged(score: real, rel: nat)

  function Pow2(n: nat): (r: nat)
    ensures r > 0
  {
    if n == 0 then 1 else 2 * Pow2(n - 1)
  }

  /** The exponential gain 2^rel - 1. */
  function Gain(rel: nat): real { (Pow2(rel) - 1) as real }

  /** The gain is exponential: 0 for nothing, 1 for relevance 1, and one more point of relevance doubles gain + 1. */
  lemma {:induction false} GainLaws(a: nat, b: nat)
    ensures Gain(0) == 0.0 && Gain(1) == 1.0
    ensures Gain(a + b) + 1.0 == (Gain(a) + 1.0) * (Gain(b) + 1.0)
  {
    if b == 0 {
      assert Gain(0) == 0.0;
    } else {
      GainLaws(a, b - 1);
      assert Gain(a + b) + 1.0 == 2.0 * (Gain(a + (b - 1)) + 1.0);
      assert Gain(b) + 1.0 == 2.0 * (Gain(b - 1) + 1.0);
    }
    assert Pow2(1) == 2 * Pow2(0);
  }

  function Score(j: Judged): real { j.score }
  function Rel(j: Judged): nat { j.rel }
  function RelKey(r: nat): real { r as real }

  /** Relevances in the order the scores put them. */
  function Ranked(items: seq<Judged>): seq<nat> { Map(Rel, SortDesc(items, Score)) }

  /** Relevances in the best possible order. */
  function Ideal(items: seq<Judged>): seq<nat> { SortDesc(Map(Rel, items), RelKey) }

  method ComputeDcg(relevances: seq<nat>, k: int, lg: nat -> real) returns (dcg: real)
    requires IsLog(lg)
    ensures dcg == Dcg(PySlice(relevances, k), Gain, lg)
  {
    dcg := 0.0;
    var top := PySlice(relevances, k);
    for i := 0 to |top|
      invariant dcg == Dcg(top[..i], Gain, lg)
    {
      assert top[..i + 1][..i] == top[..i];
      dcg := dcg + Gain(top[i]) / lg(i);
    }
    assert top[..|top|] == top;
  }

  /** The computed DCG of one item. */
  lemma {:induction false} ComputedDcgOfOne(rel: nat, lg: nat -> real)
    requires IsLog(lg)
    ensures Dcg(PySlice([rel], 1), Gain, lg) * lg(0) == Gain(rel)
  {
    DcgOfOne(rel, Gain, lg);
    hide IsLog, Dcg, Gain, PyStop;
    PySliceIs([rel], 1);
  }

  /** The computed DCG of a list and what follows it. */
  lemma {:induction false} ComputedDcgOfConcat(a: seq<nat>, b: seq<nat>, lg: nat -> real)
    requires IsLog(lg)
    ensures IsLog(From(|a|, lg))
    ensures Dcg(PySlice(a + b, |a| + |b|), Gain, lg)
         == Dcg(PySlice(a, |a|), Gain, lg) + Dcg(PySlice(b, |b|), Gain, From(|a|, lg))
  {
    DcgOfConcat(a, b, Gain, lg);
    hide IsLog, Dcg, Gain, PyStop, From;
    PySliceIs(a + b, |a| + |b|);
    PySliceIs(a, |a|);
    PySliceIs(b, |b|);
  }

  function Ndcg(items: seq<Judged>, k: int, lg: nat -> real): real
    requires IsLog(lg)
  {
    var dcg := Dcg(PySlice(Ranked(items), k), Gain, lg);
    var idcg := Dcg(PySlice(Ideal(items), k), Gain, lg);
    if idcg > 0.0 then dcg / idcg else 0.0
  }

  method ComputeNdcg(items: seq<Judged>, k: int, lg: nat -> real) returns (ndcg: real)
    requires IsLog(lg)
    ensures ndcg == Ndcg(items, k, lg)
    ensures 0.0 <= ndcg <= 1.0
  {
    var dcg := ComputeDcg(Ranked(items), k, lg);
    var idcg := ComputeDcg(Ideal(items), k, lg);
    ndcg := if idcg > 0.0 then dcg / idcg else 0.0;
    NdcgInUnitInterval(items, k, lg);
  }

  lemma Pow2Increases(a: nat, b: nat)
    ensures a < b ==> Pow2(a) < Pow2(b)
  {
  }

  lemma {:induction false} GainIsMonotone(a: nat, b: nat)
    ensures a <= b <==> Gain(a) <= Gain(b)
    ensures a == b <==> Gain(a) == Gain(b)
  {
    Pow2Increases(a, b);
    Pow2Increases(b, a);
  }

  lemma {:induction false} RankedAndIdealPermute(items: seq<Judged>)
    ensures multiset(Ranked(items)) == multiset(Map(Rel, items)) == multiset(Ideal(items))
    ensures |Ranked(items)| == |Ideal(items)| == |items|
    ensures SortedDesc(Ideal(items), Gain)
  {
    SortDescCorrect(items, Score);
    MapPermutation(Rel, SortDesc(items, Score), items);
    SortDescCorrect(Map(Rel, items), RelKey);
    var best := Ideal(items);
    forall i, j | 0 <= i < j < |best| ensures Gain(best[i]) >= Gain(best[j]) {
      assert RelKey(best[i]) >= RelKey(best[j]);
      GainIsMonotone(best[j], best[i]);
    }
  }

  function HasScore(x: real): Judged -> bool { (j: Judged) => j.score == x }

  /** The ranking the metrics read: the items in descending score order, ties as they came. */
  lemma {:induction false} RankedIs(items: seq<Judged>) returns (ranked: seq<Judged>)
    ensures multiset(ranked) == multiset(items)
    ensures forall i, j :: 0 <= i < j < |ranked| ==> ranked[i].score >= ranked[j].score
    ensures forall x :: Filter(HasScore(x), ranked) == Filter(HasScore(x), items)
    ensures |Ranked(items)| == |ranked| && forall i :: 0 <= i < |ranked| ==> Ranked(items)[i] == ranked[i].rel
  {
    ranked := SortDesc(items, Score);
    SortDescCorrect(items, Score);
    forall i, j | 0 <= i < j < |ranked| ensures ranked[i].score >= ranked[j].score {
      assert Score(ranked[i]) >= Score(ranked[j]);
    }
    forall x ensures Filter(HasScore(x), ranked) == Filter(HasScore(x), items) {
      SortDescFilter(HasScore(x), items, Score);
      TiesStay(items, x);
    }
  }

  lemma {:induction false} TiesStay(items: seq<Judged>, x: real)
    ensures SortDesc(Filter(HasScore(x), items), Score) == Filter(HasScore(x), items)
  {
    var tied := Filter(HasScore(x), items);
    forall i | 0 <= i < |tied| ensures Score(tied[i]) == x {
      FilterMember(HasScore(x), items, tied[i]);
    }
    SortDescIdempotent(tied, Score);
  }

  ghost predicate Descending(s: seq<nat>) {
    forall i, j :: 0 <= i < j < |s| ==> s[i] >= s[j]
  }

  lemma {:induction false} LargestFirst(a: seq<nat>, b: seq<nat>)
    requires a != [] && b != [] && multiset(a) == multiset(b) && Descending(a) && Descending(b)
    ensures a[0] == b[0]
  {
    PermutationMembers(a, b);
    assert a[0] in b && b[0] in a;
  }

  lemma {:induction false} RestPermutes(a: seq<nat>, b: seq<nat>)
    requires a != [] && b != [] && multiset(a) == multiset(b) && a[0] == b[0]
    ensures multiset(a[1..]) == multiset(b[1..])
  {
    assert a == [a[0]] + a[1..] && b == [b[0]] + b[1..];
    assert multiset(a) == multiset{a[0]} + multiset(a[1..]);
    assert multiset(b) == multiset{b[0]} + multiset(b[1..]);
    assert multiset(a[1..]) == multiset(a) - multiset{a[0]};
    assert multiset(b[1..]) == multiset(b) - multiset{b[0]};
  }

  lemma RestDescends(a: seq<nat>)
    requires a != [] && Descending(a)
    ensures Descending(a[1..])
  {
  }

  /** A list has one descending order. */
  lemma {:induction false} SortedOnce(a: seq<nat>, b: seq<nat>)
    requires multiset(a) == multiset(b) && Descending(a) && Descending(b)
    ensures a == b
  {
    PermutationLength(a, b);
    hide Descending;
    if a != [] {
      LargestFirst(a, b);
      RestPermutes(a, b);
      RestDescends(a);
      RestDescends(b);
      SortedOnce(a[1..], b[1..]);
      assert a == [a[0]] + a[1..] && b == [b[0]] + b[1..];
    }
  }

  /** nDCG is the share of the best attainable DCG: with any descending order of the relevances as the ideal, nDCG times
      its DCG is the DCG of the ranking, both cut at k; it is 0 when the ideal gains nothing. */
  lemma {:induction false} NdcgIs(items: seq<Judged>, ideal: seq<nat>, k: int, lg: nat -> real)
    requires IsLog(lg) && Descending(ideal) && multiset(ideal) == multiset(Ranked(items))
    ensures Ndcg(items, k, lg) * Dcg(PySlice(ideal, k), Gain, lg) == Dcg(PySlice(Ranked(items), k), Gain, lg)
    ensures Dcg(PySlice(ideal, k), Gain, lg) == 0.0 ==> Ndcg(items, k, lg) == 0.0
  {
    hide Ranked, Ideal, Dcg, Gain, IsLog, PySlice, Ndcg;
    IdealIs(items, ideal);
    NdcgTimes(items, k, lg, Dcg(PySlice(ideal, k), Gain, lg));
  }

  lemma {:induction false} NdcgTimes(items: seq<Judged>, k: int, lg: nat -> real, idcg: real)
    requires IsLog(lg) && idcg == Dcg(PySlice(Ideal(items), k), Gain, lg)
    ensures Ndcg(items, k, lg) * idcg == Dcg(PySlice(Ranked(items), k), Gain, lg)
    ensures idcg == 0.0 ==> Ndcg(items, k, lg) == 0.0
  {
    NdcgIsShare(items, k, lg);
    hide Ranked, Ideal, Dcg, Gain, IsLog, PySlice, Ndcg, Share;
    DcgIsAtMostIdeal(items, k, lg);
    ShareTimes(Ndcg(items, k, lg), Dcg(PySlice(Ranked(items), k), Gain, lg), idcg);
  }

  lemma {:induction false} IdealIs(items: seq<Judged>, ideal: seq<nat>)
    requires Descending(ideal) && multiset(ideal) == multiset(Ranked(items))
    ensures ideal == Ideal(items)
  {
    RankedAndIdealPermute(items);
    forall i, j | 0 <= i < j < |Ideal(items)| ensures Ideal(items)[i] >= Ideal(items)[j] {
      GainIsMonotone(Ideal(items)[j], Ideal(items)[i]);
    }
    hide Ranked, Ideal, Gain;
    SortedOnce(ideal, Ideal(items));
  }

  lemma {:induction false} DcgIsAtMostIdeal(items: seq<Judged>, k: int, lg: nat -> real)
    requires IsLog(lg)
    ensures 0.0 <= Dcg(PySlice(Ranked(items), k), Gain, lg) <= Dcg(PySlice(Ideal(items), k), Gain, lg)
  {
    RankedAndIdealPermute(items);
    IdealOrderIsBest(items, Ranked(items), k, lg);
    DcgNonNegative(PySlice(Ranked(items), k), Gain, lg);
  }

  function Share(x: real, y: real): real { if y > 0.0 then x / y else 0.0 }

  lemma ShareTimes(share: real, x: real, y: real)
    requires 0.0 <= x <= y && share == Share(x, y)
    ensures share * y == x && (y == 0.0 ==> share == 0.0)
  {
  }

  lemma NdcgIsShare(items: seq<Judged>, k: int, lg: nat -> real)
    requires IsLog(lg)
    ensures Ndcg(items, k, lg)
         == Share(Dcg(PySlice(Ranked(items), k), Gain, lg), Dcg(PySlice(Ideal(items), k), Gain, lg))
  {
    hide Ranked, Ideal, Dcg, Gain, PySlice;
  }

  lemma RecallIsShare(hits: seq<bool>, k: int)
    ensures RecallOf(hits, k) == Share(NumHits(PySlice(hits, k)) as real, NumHits(hits) as real)
  {
  }

  lemma AverageIsShare(hits: seq<bool>)
    ensures AveragePrecision(hits) == Share(PrecisionSum(hits), NumHits(hits) as real)
  {
  }

  /** No ordering of the relevances has a larger truncated DCG than the relevance-descending one,
      and the truncated DCGs agree exactly when the first k relevances do. */
  lemma {:induction false} IdealOrderIsBest(items: seq<Judged>, order: seq<nat>, k: int, lg: nat -> real)
    requires IsLog(lg) && multiset(order) == multiset(Map(Rel, items))
    ensures Dcg(PySlice(order, k), Gain, lg) <= Dcg(PySlice(Ideal(items), k), Gain, lg)
    ensures Dcg(PySlice(order, k), Gain, lg) == Dcg(PySlice(Ideal(items), k), Gain, lg)
       <==> PySlice(order, k) == PySlice(Ideal(items), k)
  {
    RankedAndIdealPermute(items);
    PermutationLength(order, Ideal(items));
    var n := PyStop(|order|, k);
    var a, b := PySlice(order, k), PySlice(Ideal(items), k);
    TopPrefixDominates(order, Ideal(items), Gain, n);
    DominatedDcg(b, Gain, a, Gain, lg);
    if Dcg(a, Gain, lg) == Dcg(b, Gain, lg) {
      forall i | 0 <= i < n ensures a[i] == b[i] {
        GainIsMonotone(a[i], b[i]);
      }
    }
  }

  /** NDCG@k is in [0, 1] for every score list, relevance list and k (negative k included). */
  lemma {:induction false} NdcgInUnitInterval(items: seq<Judged>, k: int, lg: nat -> real)
    requires IsLog(lg)
    ensures 0.0 <= Ndcg(items, k, lg) <= 1.0
  {
    RankedAndIdealPermute(items);
    IdealOrderIsBest(items, Ranked(items), k, lg);
    DcgNonNegative(PySlice(Ranked(items), k), Gain, lg);
    RatioInUnitInterval(Dcg(PySlice(Ranked(items), k), Gain, lg), Dcg(PySlice(Ideal(items), k), Gain, lg));
  }

  /** With a positive ideal DCG, NDCG@k is 1 exactly when the first k relevances are the ideal first k. */
  lemma {:induction false} NdcgIsOneIff(items: seq<Judged>, k: int, lg: nat -> real)
    requires IsLog(lg) && Dcg(PySlice(Ideal(items), k), Gain, lg) > 0.0
    ensures Ndcg(items, k, lg) == 1.0 <==> PySlice(Ranked(items), k) == PySlice(Ideal(items), k)
  {
    RankedAndIdealPermute(items);
    IdealOrderIsBest(items, Ranked(items), k, lg);
    RatioIsOne(Dcg(PySlice(Ranked(items), k), Gain, lg), Dcg(PySlice(Ideal(items), k), Gain, lg));
  }

  lemma RatioInUnitInterval(x: real, y: real)
    requires 0.0 <= x <= y
    ensures y > 0.0 ==> 0.0 <= x / y <= 1.0
  {
  }

  lemma {:induction false} RatioIsOne(x: real, y: real)
    requires y > 0.0
    ensures x / y == 1.0 <==> x == y
  {
    assert (x / y) * y == x;
  }

  lemma {:induction false} RatioGrows(x: real, z: real, y: real)
    requires y > 0.0
    ensures x <= z ==> x / y <= z / y
    ensures x < z ==> x / y < z / y
  {
    assert z / y - x / y == (z - x) / y;
  }

  // ----- thresholded metrics -----

  function AtLeast(threshold: real): nat -> bool {
    (rel: nat) => rel as real >= threshold
  }

  /** Which ranks hold a relevant item. */
  function Hits(items: seq<Judged>, threshold: real): seq<bool> {
    Map(AtLeast(threshold), Ranked(items))
  }

  function IsHit(h: bool): bool { h }

  function NumHits(hits: seq<bool>): nat { CountBy(IsHit, hits) }

  /** Rank (from 0) of the first hit, or the length when there is none. */
  function FirstHit(hits: seq<bool>): (r: nat)
    ensures r <= |hits|
    ensures r < |hits| ==> hits[r]
    ensures forall i :: 0 <= i < r ==> !hits[i]
  {
    if hits == [] || hits[0] then 0 else 1 + FirstHit(hits[1..])
  }

  function ReciprocalRank(hits: seq<bool>): real {
    if FirstHit(hits) < |hits| then 1.0 / (FirstHit(hits) + 1) as real else 0.0
  }

  /** A rank is a hit exactly when the relevance there reaches the threshold. */
  lemma HitsAre(items: seq<Judged>, threshold: real)
    ensures |Hits(items, threshold)| == |Ranked(items)|
    ensures forall i :: 0 <= i < |Hits(items, threshold)| ==>
      (Hits(items, threshold)[i] <==> Ranked(items)[i] as real >= threshold)
  {
  }

  /** The reciprocal of the rank of the first hit, counted from 1; 0 when there is none. */
  lemma {:induction false} ReciprocalRankIs(hits: seq<bool>, r: nat)
    requires r < |hits| ==> hits[r]
    requires forall i :: 0 <= i < r && i < |hits| ==> !hits[i]
    ensures r < |hits| ==> ReciprocalRank(hits) * (r + 1) as real == 1.0
    ensures r >= |hits| ==> ReciprocalRank(hits) == 0.0
  {
    if r < |hits| {
      assert FirstHit(hits) == r;
    }
  }

  method ComputeMrr(items: seq<Judged>, threshold: real) returns (mrr: real)
    ensures mrr == ReciprocalRank(Hits(items, threshold))
    ensures mrr == 0.0 <==> true !in Hits(items, threshold)
  {
    var sorted := SortDesc(items, Score);
    ghost var hits := Hits(items, threshold);
    for i := 0 to |sorted|
      invariant forall j :: 0 <= j < i ==> !hits[j]
    {
      if sorted[i].rel as real >= threshold {
        assert hits[i] && FirstHit(hits) == i;
        return 1.0 / (i + 1) as real;
      }
    }
    return 0.0;
  }

  function RecallOf(hits: seq<bool>, k: int): real {
    if NumHits(hits) == 0 then 0.0 else NumHits(PySlice(hits, k)) as real / NumHits(hits) as real
  }

  function IsRelevant(threshold: real): Judged -> bool {
    (j: Judged) => j.rel as real >= threshold
  }

  function Recall(items: seq<Judged>, k: int, threshold: real): (r: real) {
    var total := CountBy(IsRelevant(threshold), items);
    if total == 0 then 0.0
    else CountBy(IsRelevant(threshold), PySlice(SortDesc(items, Score), k)) as real / total as real
  }

  lemma {:induction false} HitsCount(items: seq<Judged>, sub: seq<Judged>, threshold: real)
    ensures CountBy(IsRelevant(threshold), sub) == NumHits(Map(AtLeast(threshold), Map(Rel, sub)))
  {
    CountMap(Rel, IsRelevant(threshold), AtLeast(threshold), sub);
    CountMap(AtLeast(threshold), AtLeast(threshold), IsHit, Map(Rel, sub));
  }

  /** The recall computed from the unsorted total is the recall of the ranking, and it lies in [0, 1]. */
  lemma {:induction false} RecallIsOfRanking(items: seq<Judged>, k: int, threshold: real)
    ensures Recall(items, k, threshold) == RecallOf(Hits(items, threshold), k)
    ensures 0.0 <= Recall(items, k, threshold) <= 1.0
  {
    var sorted, hits := SortDesc(items, Score), Hits(items, threshold);
    SortDescCorrect(items, Score);
    CountPermutation(IsRelevant(threshold), sorted, items);
    HitsCount(items, sorted, threshold);
    HitsCount(items, PySlice(sorted, k), threshold);
    assert PySlice(hits, k) == Map(AtLeast(threshold), Map(Rel, PySlice(sorted, k)));
    PrefixHits(hits, PyStop(|hits|, k));
    RatioInUnitInterval(NumHits(PySlice(hits, k)) as real, NumHits(hits) as real);
  }

  /** Recall times the number of hits in the whole ranking is the number of hits in its first k ranks. */
  lemma {:induction false} RecallIs(hits: seq<bool>, k: int)
    ensures RecallOf(hits, k) * NumHits(hits) as real == NumHits(PySlice(hits, k)) as real
    ensures NumHits(hits) == 0 ==> RecallOf(hits, k) == 0.0
  {
    PrefixHits(hits, PyStop(|hits|, k));
    RecallIsShare(hits, k);
    hide RecallOf, NumHits, Share;
    ShareTimes(RecallOf(hits, k), NumHits(PySlice(hits, k)) as real, NumHits(hits) as real);
  }

  lemma {:induction false} PrefixHits(hits: seq<bool>, n: nat)
    requires n <= |hits|
    ensures NumHits(hits[..n]) <= NumHits(hits)
  {
    assert hits == hits[..n] + hits[n..];
    CountConcat(IsHit, hits[..n], hits[n..]);
  }

  /** Sum over the hits of the precision of the ranking cut at that hit. */
  function PrecisionSum(hits: seq<bool>): real {
    if hits == [] then 0.0
    else if hits[|hits| - 1] then PrecisionSum(hits[..|hits| - 1]) + NumHits(hits) as real / |hits| as real
    else PrecisionSum(hits[..|hits| - 1])
  }

  function AveragePrecision(hits: seq<bool>): real {
    if NumHits(hits) == 0 then 0.0 else PrecisionSum(hits) / NumHits(hits) as real
  }

  /** The precision of the ranking cut after rank i, where it holds a hit. */
  function PrecisionAt(hits: seq<bool>): nat -> real {
    (i: nat) => if i < |hits| && hits[i] then NumHits(hits[..i + 1]) as real / (i + 1) as real else 0.0
  }

  lemma {:induction false} PrecisionsAddUp(hits: seq<bool>)
    ensures PrecisionSum(hits) == SumBy(UpTo(|hits|), PrecisionAt(hits))
  {
    if hits != [] {
      var n := |hits| - 1;
      PrecisionsAddUp(hits[..n]);
      forall i | 0 <= i < n ensures PrecisionAt(hits)(i) == PrecisionAt(hits[..n])(i) {
        assert hits[..n][..i + 1] == hits[..i + 1];
      }
      SumUpTo(|hits|, PrecisionAt(hits), PrecisionAt(hits[..n]));
      assert hits[..n + 1] == hits;
    }
  }

  /** Average precision times the number of hits is the sum, over the ranks that hold one, of the precision there. */
  lemma {:induction false} AveragePrecisionIs(hits: seq<bool>)
    ensures AveragePrecision(hits) * NumHits(hits) as real == SumBy(UpTo(|hits|), PrecisionAt(hits))
    ensures NumHits(hits) == 0 ==> AveragePrecision(hits) == 0.0
  {
    PrecisionsAddUp(hits);
    PrecisionSumBound(hits);
    AverageIsShare(hits);
    hide PrecisionSum, NumHits, PrecisionAt, SumBy, AveragePrecision, Share;
    ShareTimes(AveragePrecision(hits), PrecisionSum(hits), NumHits(hits) as real);
  }

  /** The number of hits: none in an empty list, and one more for every further hit. */
  lemma NumHitsIs(hits: seq<bool>, h: bool)
    ensures NumHits([]) == 0 && NumHits(hits + [h]) == NumHits(hits) + if h then 1 else 0
  {
  }

  method ComputeMap(items: seq<Judged>, threshold: real) returns (ap: real)
    ensures ap == AveragePrecision(Hits(items, threshold))
  {
    var sorted := SortDesc(items, Score);
    ghost var hits := Hits(items, threshold);
    HitsCount(items, sorted, threshold);
    var numRelevant := CountBy(IsRelevant(threshold), sorted);
    if numRelevant == 0 {
      return 0.0;
    }
    ap := 0.0;
    var soFar := 0;
    for i := 0 to |sorted|
      invariant soFar == NumHits(hits[..i])
      invariant ap == PrecisionSum(hits[..i])
    {
      assert hits[..i + 1][..i] == hits[..i];
      if sorted[i].rel as real >= threshold {
        soFar := soFar + 1;
        ap := ap + soFar as real / (i + 1) as real;
      }
    }
    assert hits[..|hits|] == hits;
    ap := ap / numRelevant as real;
  }

  /** No hit comes after a miss. */
  ghost predicate HitsFirst(hits: seq<bool>) {
    forall i, j :: 0 <= i < j < |hits| && hits[j] ==> hits[i]
  }

  lemma {:induction false} AllHits(hits: seq<bool>)
    ensures NumHits(hits) == |hits| <==> forall i :: 0 <= i < |hits| ==> hits[i]
  {
    if hits != [] {
      AllHits(hits[..|hits| - 1]);
    }
  }

  lemma {:induction false} HitsFirstStep(hits: seq<bool>)
    requires hits != []
    ensures HitsFirst(hits) <==>
      HitsFirst(hits[..|hits| - 1]) && (hits[|hits| - 1] ==> NumHits(hits) == |hits|)
  {
    AllHits(hits);
  }

  lemma {:induction false} PrecisionSumBound(hits: seq<bool>)
    ensures 0.0 <= PrecisionSum(hits) <= NumHits(hits) as real
    ensures PrecisionSum(hits) == NumHits(hits) as real <==> HitsFirst(hits)
  {
    if hits != [] {
      var n := |hits|;
      var precision := NumHits(hits) as real / n as real;
      PrecisionSumBound(hits[..n - 1]);
      HitsFirstStep(hits);
      RatioInUnitInterval(NumHits(hits) as real, n as real);
      RatioIsOne(NumHits(hits) as real, n as real);
      assert NumHits(hits) == NumHits(hits[..n - 1]) + if hits[n - 1] then 1 else 0;
    }
  }

  /** Average precision is in [0, 1], and it is 1 exactly when the hits form a non-empty prefix. */
  lemma {:induction false} AveragePrecisionRange(hits: seq<bool>)
    ensures 0.0 <= AveragePrecision(hits) <= 1.0
    ensures AveragePrecision(hits) == 1.0 <==> true in hits && HitsFirst(hits)
  {
    PrecisionSumBound(hits);
    NoHits(hits);
    if NumHits(hits) > 0 {
      RatioInUnitInterval(PrecisionSum(hits), NumHits(hits) as real);
      RatioIsOne(PrecisionSum(hits), NumHits(hits) as real);
    }
  }

  lemma {:induction false} NoHits(hits: seq<bool>)
    ensures NumHits(hits) == 0 <==> true !in hits
  {
    if hits != [] {
      NoHits(hits[..|hits| - 1]);
    }
  }

  // ----- promoting a relevant item past an irrelevant one -----

  /** Swapping an adjacent pair so that the larger gain comes first raises every prefix sum. */
  lemma {:induction false} SwapDominates<T>(pre: seq<T>, lo: T, hi: T, post: seq<T>, gain: T -> real, n: nat)
    requires gain(lo) <= gain(hi) && n <= |pre| + 2 + |post|
    ensures Dominates((pre + [hi, lo] + post)[..n], gain, (pre + [lo, hi] + post)[..n], gain)
  {
    var a, b, p := pre + [lo, hi] + post, pre + [hi, lo] + post, |pre|;
    forall j | 0 <= j <= n ensures SumBy(a[..n][..j], gain) <= SumBy(b[..n][..j], gain) {
      assert a[..n][..j] == a[..j] && b[..n][..j] == b[..j];
      if j <= p {
        assert a[..j] == b[..j];
      } else if j == p + 1 {
        assert a[..j] == pre + [lo] && b[..j] == pre + [hi];
        SumByConcat(pre, [lo], gain);
        SumByConcat(pre, [hi], gain);
      } else {
        assert a[..j] == pre + [lo, hi] + post[..j - p - 2];
        assert b[..j] == pre + [hi, lo] + post[..j - p - 2];
        SumByPermutation(a[..j], b[..j], gain);
      }
    }
  }

  lemma {:induction false} SwapPrecision(pre: seq<bool>, post: seq<bool>)
    ensures PrecisionSum(pre + [false, true] + post) < PrecisionSum(pre + [true, false] + post)
    ensures NumHits(pre + [false, true] + post) == NumHits(pre + [true, false] + post) > 0
  {
    var a, b := pre + [false, true] + post, pre + [true, false] + post;
    SwapKeepsHits(pre, post);
    if post == [] {
      SwapAtEnd(pre);
      assert a == pre + [false, true] && b == pre + [true, false];
    } else {
      var n, front := |a| - 1, post[..|post| - 1];
      assert a[..n] == pre + [false, true] + front && b[..n] == pre + [true, false] + front;
      SwapPrecision(pre, front);
      assert a[n] == b[n] == post[|post| - 1];
    }
  }

  lemma {:induction false} SwapKeepsHits(pre: seq<bool>, post: seq<bool>)
    ensures NumHits(pre + [false, true] + post) == NumHits(pre + [true, false] + post) > 0
  {
    var a, b := pre + [false, true] + post, pre + [true, false] + post;
    CountPermutation(IsHit, a, b);
    NoHits(a);
    assert a[|pre| + 1];
  }

  lemma {:induction false} SwapAtEnd(pre: seq<bool>)
    ensures PrecisionSum(pre + [false, true]) < PrecisionSum(pre + [true, false])
  {
    var a, b, p := pre + [false, true], pre + [true, false], |pre|;
    assert a[..p + 1] == pre + [false] && b[..p + 1] == pre + [true];
    assert (pre + [false])[..p] == pre && (pre + [true])[..p] == pre;
    assert NumHits(pre + [false]) == NumHits(pre) && NumHits(pre + [true]) == NumHits(pre) + 1;
    assert NumHits(a) == NumHits(pre) + 1;
    assert PrecisionSum(a) == PrecisionSum(pre) + (NumHits(pre) + 1) as real / (p + 2) as real;
    assert PrecisionSum(b) == PrecisionSum(pre + [true])
        == PrecisionSum(pre) + (NumHits(pre) + 1) as real / (p + 1) as real;
    DivideByLarger((NumHits(pre) + 1) as real, (p + 1) as real, (p + 2) as real);
  }

  lemma {:induction false} FirstHitConcat(pre: seq<bool>, rest: seq<bool>)
    ensures FirstHit(pre + rest) == if true in pre then FirstHit(pre) else |pre| + FirstHit(rest)
  {
    if pre == [] {
      assert pre + rest == rest;
    } else {
      assert (pre + rest)[1..] == pre[1..] + rest;
      FirstHitConcat(pre[1..], rest);
      assert pre == [pre[0]] + pre[1..];
    }
  }

  lemma {:induction false} SwapReciprocalRank(pre: seq<bool>, post: seq<bool>)
    ensures ReciprocalRank(pre + [false, true] + post) <= ReciprocalRank(pre + [true, false] + post)
  {
    var a, b := [false, true] + post, [true, false] + post;
    assert pre + [false, true] + post == pre + a && pre + [true, false] + post == pre + b;
    FirstHitConcat(pre, a);
    FirstHitConcat(pre, b);
    assert a[1..][0];
    DivideByLarger(1.0, (|pre| + 1) as real, (|pre| + 2) as real);
  }

  lemma {:induction false} SwapRecall(pre: seq<bool>, post: seq<bool>, k: int)
    ensures RecallOf(pre + [false, true] + post, k) <= RecallOf(pre + [true, false] + post, k)
  {
    var a, b := pre + [false, true] + post, pre + [true, false] + post;
    var n := PyStop(|a|, k);
    assert !IsHit(false) && IsHit(true);
    SwapDominates(pre, false, true, post, Indicator(IsHit), n);
    assert a[..n][..n] == a[..n] && b[..n][..n] == b[..n];
    CountIsSum(IsHit, a[..n]);
    CountIsSum(IsHit, b[..n]);
    SwapPrecision(pre, post);
    RatioGrows(NumHits(a[..n]) as real, NumHits(b[..n]) as real, NumHits(a) as real);
  }

  lemma {:induction false} SwapNdcg(before: seq<Judged>, after: seq<Judged>, pre: seq<nat>, lo: nat, hi: nat,
                                    post: seq<nat>, k: int, lg: nat -> real)
    requires IsLog(lg) && lo <= hi
    requires Ranked(before) == pre + [lo, hi] + post && Ranked(after) == pre + [hi, lo] + post
    ensures Ndcg(before, k, lg) <= Ndcg(after, k, lg)
  {
    hide Dcg, Ranked, Ideal, Gain;
    RankedAndIdealPermute(before);
    RankedAndIdealPermute(after);
    assert multiset(Ranked(before)) == multiset(Ranked(after));
    IdealOrderIsBest(before, Ideal(after), k, lg);
    IdealOrderIsBest(after, Ideal(before), k, lg);
    var a, b := PySlice(Ranked(before), k), PySlice(Ranked(after), k);
    GainIsMonotone(lo, hi);
    SwapDominates(pre, lo, hi, post, Gain, PyStop(|Ranked(before)|, k));
    DominatedDcg(b, Gain, a, Gain, lg);
    var idcg := Dcg(PySlice(Ideal(before), k), Gain, lg);
    if idcg > 0.0 {
      RatioGrows(Dcg(a, Gain, lg), Dcg(b, Gain, lg), idcg);
    }
  }

  /** Moving a relevant item one rank up past an irrelevant one strictly raises average precision and never
      lowers Recall@k, NDCG@k or the reciprocal rank. */
  lemma {:induction false} PromotingARelevantItem(before: seq<Judged>, after: seq<Judged>, pre: seq<nat>, lo: nat,
                                                  hi: nat, post: seq<nat>, threshold: real, k: int, lg: nat -> real)
    requires IsLog(lg) && lo as real < threshold <= hi as real
    requires Ranked(before) == pre + [lo, hi] + post && Ranked(after) == pre + [hi, lo] + post
    ensures AveragePrecision(Hits(before, threshold)) < AveragePrecision(Hits(after, threshold))
    ensures Recall(before, k, threshold) <= Recall(after, k, threshold)
    ensures Ndcg(before, k, lg) <= Ndcg(after, k, lg)
    ensures ReciprocalRank(Hits(before, threshold)) <= ReciprocalRank(Hits(after, threshold))
  {
    var f := AtLeast(threshold);
    var hpre, hpost := Map(f, pre), Map(f, post);
    assert Hits(before, threshold) == hpre + [false, true] + hpost;
    assert Hits(after, threshold) == hpre + [true, false] + hpost;
    SwapPrecision(hpre, hpost);
    RatioGrows(PrecisionSum(Hits(before, threshold)), PrecisionSum(Hits(after, threshold)),
               NumHits(Hits(before, threshold)) as real);
    RecallIsOfRanking(before, k, threshold);
    RecallIsOfRanking(after, k, threshold);
    SwapRecall(hpre, hpost, k);
    SwapNdcg(before, after, pre, lo, hi, post, k, lg);
    SwapReciprocalRank(hpre, hpost);
  }
}
