/** Discounted cumulative gain over an arbitrary gain, and the truncated rearrangement inequality behind NDCG <= 1. */
module DiscountedGain {
  import opened Sequences
  import opened Sorting

  /** `lg(i)` stands for log2(i + 2): all that is used of it is that it is positive and strictly increasing. */
  ghost predicate IsLog(lg: nat -> real) {
    && (forall i: nat :: lg(i) > 0.0)
    && (forall i: nat, j: nat :: i < j ==> lg(i) < lg(j))
  }

  function Discounted(x: real, q: real): real
    requires q > 0.0
  {
    x / q
  }

  /** Sum of `gain(s[i]) / lg(i)`. */
  function Dcg<T>(s: seq<T>, gain: T -> real, lg: nat -> real): real
    requires IsLog(lg)
  {
    if s == [] then 0.0
    else Dcg(s[..|s| - 1], gain, lg) + Discounted(gain(s[|s| - 1]), lg(|s| - 1))
  }

  /** What rank i adds. */
  function DiscountedAt<T>(s: seq<T>, gain: T -> real, lg: nat -> real): nat -> real
    requires IsLog(lg)
  {
    (i: nat) => if i < |s| then gain(s[i]) / lg(i) else 0.0
  }

  /** The DCG is the sum over all ranks of the gain there, divided by the logarithm of that rank. */
  lemma {:induction false} DcgIsSum<T>(s: seq<T>, gain: T -> real, lg: nat -> real)
    requires IsLog(lg)
    ensures Dcg(s, gain, lg) == SumBy(UpTo(|s|), DiscountedAt(s, gain, lg))
  {
    if s != [] {
      var n := |s| - 1;
      DcgIsSum(s[..n], gain, lg);
      SumUpTo(|s|, DiscountedAt(s, gain, lg), DiscountedAt(s[..n], gain, lg));
    }
  }

  /** The discounts from rank n on. */
  function From(n: nat, lg: nat -> real): nat -> real { (i: nat) => lg(n + i) }

  lemma FromIsLog(n: nat, lg: nat -> real)
    requires IsLog(lg)
    ensures IsLog(From(n, lg))
  {
  }

  /** One item gains its gain over the first discount. */
  lemma {:induction false} DcgOfOne<T>(x: T, gain: T -> real, lg: nat -> real)
    requires IsLog(lg)
    ensures Dcg([x], gain, lg) * lg(0) == gain(x)
  {
    assert [x][..0] == [] && lg(0) > 0.0;
    assert Dcg([x], gain, lg) == gain(x) / lg(0);
  }

  /** A list and what follows it gain the sum, the latter under the discounts of its own ranks. */
  lemma {:induction false} DcgOfConcat<T>(a: seq<T>, b: seq<T>, gain: T -> real, lg: nat -> real)
    requires IsLog(lg)
    ensures IsLog(From(|a|, lg)) && Dcg(a + b, gain, lg) == Dcg(a, gain, lg) + Dcg(b, gain, From(|a|, lg))
  {
    FromIsLog(|a|, lg);
    hide IsLog, Discounted, From, Dcg;
    if b == [] {
      assert a + b == a;
      DcgOfNone(b, gain, From(|a|, lg));
    } else {
      var n := |b| - 1;
      DcgOfConcat(a, b[..n], gain, lg);
      FromAt(|a|, n, lg);
      assert (a + b)[..|a + b| - 1] == a + b[..n] && (a + b)[|a + b| - 1] == b[n];
      DcgSnoc(a + b, gain, lg);
      DcgSnoc(b, gain, From(|a|, lg));
    }
  }

  lemma DcgOfNone<T>(s: seq<T>, gain: T -> real, lg: nat -> real)
    requires IsLog(lg) && s == []
    ensures Dcg(s, gain, lg) == 0.0
  {
  }

  lemma FromAt(n: nat, i: nat, lg: nat -> real)
    ensures From(n, lg)(i) == lg(n + i)
  {
  }

  lemma DcgSnoc<T>(s: seq<T>, gain: T -> real, lg: nat -> real)
    requires IsLog(lg) && s != []
    ensures lg(|s| - 1) > 0.0
    ensures Dcg(s, gain, lg) == Dcg(s[..|s| - 1], gain, lg) + Discounted(gain(s[|s| - 1]), lg(|s| - 1))
  {
  }

  /** Every prefix of `b` gains at least as much as the prefix of `a` of the same length. */
  ghost predicate Dominates<A, B>(b: seq<B>, gb: B -> real, a: seq<A>, ga: A -> real) {
    |a| == |b| && forall j :: 0 <= j <= |a| ==> SumBy(a[..j], ga) <= SumBy(b[..j], gb)
  }

  lemma {:induction false} DivideByLarger(x: real, p: real, q: real)
    requires x >= 0.0 && 0.0 < p < q
    ensures x / p >= x / q
    ensures x > 0.0 ==> x / p > x / q
  {
    assert x / p - x / q == x * (q - p) / (p * q);
  }

  lemma {:induction false} DominatesInit<A, B>(b: seq<B>, gb: B -> real, a: seq<A>, ga: A -> real)
    requires Dominates(b, gb, a, ga) && a != []
    ensures Dominates(b[..|b| - 1], gb, a[..|a| - 1], ga)
  {
    var n := |a| - 1;
    forall j | 0 <= j <= n ensures SumBy(a[..n][..j], ga) <= SumBy(b[..n][..j], gb) {
      assert a[..n][..j] == a[..j] && b[..n][..j] == b[..j];
    }
  }

  lemma DivideDifference(x: real, y: real, q: real)
    requires q > 0.0
    ensures Discounted(x, q) - Discounted(y, q) == Discounted(x - y, q)
  {
  }

  /** One step of the summation: `d` is the DCG gap so far, `gap` the prefix gap, `x` and `y` the next gains. */
  lemma {:induction false} AbelStep(d: real, gap: real, x: real, y: real, p: real, q: real)
    requires 0.0 < p < q && gap >= 0.0 && d >= Discounted(gap, p)
    ensures d + (Discounted(x, q) - Discounted(y, q)) >= Discounted(gap + (x - y), q)
    ensures gap > 0.0 || d > Discounted(gap, p) ==>
      d + (Discounted(x, q) - Discounted(y, q)) > Discounted(gap + (x - y), q)
  {
    DivideByLarger(gap, p, q);
    DivideDifference(x, y, q);
    DivideDifference(gap + (x - y), gap, q);
  }

  /** Abel summation: under a decreasing discount, dominated prefix sums give a dominated weighted sum,
      and one strictly dominated proper prefix (of length j) makes the bound strict. */
  lemma {:induction false} AbelInequality<A, B>(b: seq<B>, gb: B -> real, a: seq<A>, ga: A -> real,
                                                lg: nat -> real, j: nat)
    requires IsLog(lg) && Dominates(b, gb, a, ga) && j < |a|
    ensures Dcg(b, gb, lg) - Dcg(a, ga, lg) >= Discounted(SumBy(b, gb) - SumBy(a, ga), lg(|a| - 1))
    ensures SumBy(a[..j], ga) < SumBy(b[..j], gb) ==>
      Dcg(b, gb, lg) - Dcg(a, ga, lg) > Discounted(SumBy(b, gb) - SumBy(a, ga), lg(|a| - 1))
  {
    assert |a| == |b|;
    hide Discounted, Dominates;
    var n := |a| - 1;
    var a', b' := a[..n], b[..n];
    var x, y := gb(b[n]), ga(a[n]);
    DivideDifference(x, y, lg(n));
    if n > 0 {
      DominatesInit(b, gb, a, ga);
      DominatesWhole(b', gb, a', ga);
      var i := if j < n then j else 0;
      SamePrefixes(a, ga, n, i);
      SamePrefixes(b, gb, n, i);
      AbelInequality(b', gb, a', ga, lg, i);
      AbelStep(Dcg(b', gb, lg) - Dcg(a', ga, lg), SumBy(b', gb) - SumBy(a', ga), x, y, lg(n - 1), lg(n));
    }
  }

  lemma {:induction false} DominatesWhole<A, B>(b: seq<B>, gb: B -> real, a: seq<A>, ga: A -> real)
    requires Dominates(b, gb, a, ga)
    ensures SumBy(a, ga) <= SumBy(b, gb)
  {
    assert a[..|a|] == a && b[..|b|] == b;
  }

  lemma {:induction false} SamePrefixes<T>(s: seq<T>, gain: T -> real, n: nat, i: nat)
    requires i <= n <= |s|
    ensures SumBy(s[..n][..i], gain) == SumBy(s[..i], gain)
  {
    assert s[..n][..i] == s[..i];
  }

  /** The amount by which `gain(x)` exceeds `t`. */
  function Excess(v: real, t: real): real {
    if v > t then v - t else 0.0
  }

  function Over<T>(gain: T -> real, t: real): T -> real {
    x => Excess(gain(x), t)
  }

  /** t added to itself n times. */
  function Times(n: nat, t: real): real {
    if n == 0 then 0.0 else Times(n - 1, t) + t
  }

  lemma {:induction false} SumAboveThreshold<T>(s: seq<T>, gain: T -> real, t: real)
    ensures SumBy(s, gain) <= Times(|s|, t) + SumBy(s, Over(gain, t))
  {
    if s != [] {
      SumAboveThreshold(s[..|s| - 1], gain, t);
    }
  }

  lemma {:induction false} SumAllAboveThreshold<T>(s: seq<T>, gain: T -> real, t: real)
    requires forall i :: 0 <= i < |s| ==> gain(s[i]) >= t
    ensures SumBy(s, gain) == Times(|s|, t) + SumBy(s, Over(gain, t))
  {
    if s != [] {
      SumAllAboveThreshold(s[..|s| - 1], gain, t);
    }
  }

  lemma {:induction false} NoExcessBelow<T>(s: seq<T>, gain: T -> real, t: real)
    requires forall i :: 0 <= i < |s| ==> gain(s[i]) <= t
    ensures SumBy(s, Over(gain, t)) == 0.0
  {
    if s != [] {
      NoExcessBelow(s[..|s| - 1], gain, t);
    }
  }

  lemma {:induction false} PrefixAtMost<T>(r: seq<T>, gain: T -> real, t: real, j: nat)
    requires j <= |r|
    ensures SumBy(r[..j], gain) <= Times(j, t) + SumBy(r, Over(gain, t))
  {
    SumAboveThreshold(r[..j], gain, t);
    SumByPrefixLeq(r, Over(gain, t), j);
  }

  lemma {:induction false} BestPrefixExactly<T>(best: seq<T>, gain: T -> real, j: nat)
    requires SortedDesc(best, gain) && 0 < j <= |best|
    ensures SumBy(best[..j], gain)
         == Times(j, gain(best[j - 1])) + SumBy(best, Over(gain, gain(best[j - 1])))
  {
    var t := gain(best[j - 1]);
    assert best == best[..j] + best[j..];
    SumByConcat(best[..j], best[j..], Over(gain, t));
    NoExcessBelow(best[j..], gain, t);
    SumAllAboveThreshold(best[..j], gain, t);
  }

  /** The first j items of the gain-descending order gain at least as much as the first j of any other order. */
  lemma {:induction false} TopPrefixIsBest<T>(r: seq<T>, best: seq<T>, gain: T -> real, j: nat)
    requires multiset(r) == multiset(best) && SortedDesc(best, gain) && j <= |r|
    ensures j <= |best| && SumBy(r[..j], gain) <= SumBy(best[..j], gain)
  {
    PermutationLength(r, best);
    if j > 0 {
      var t := gain(best[j - 1]);
      PrefixAtMost(r, gain, t, j);
      BestPrefixExactly(best, gain, j);
      SumByPermutation(r, best, Over(gain, t));
    }
  }

  lemma {:induction false} TopPrefixDominates<T>(r: seq<T>, best: seq<T>, gain: T -> real, n: nat)
    requires multiset(r) == multiset(best) && SortedDesc(best, gain) && n <= |r|
    ensures n <= |best| && Dominates(best[..n], gain, r[..n], gain)
  {
    PermutationLength(r, best);
    forall j | 0 <= j <= n ensures SumBy(r[..n][..j], gain) <= SumBy(best[..n][..j], gain) {
      assert r[..n][..j] == r[..j] && best[..n][..j] == best[..j];
      TopPrefixIsBest(r, best, gain, j);
    }
  }

  /** Equal prefix sums mean equal gains position by position. */
  lemma {:induction false} EqualPrefixSums<A, B>(b: seq<B>, gb: B -> real, a: seq<A>, ga: A -> real, i: nat)
    requires |a| == |b| && i < |a|
    requires forall j :: 0 <= j <= |a| ==> SumBy(a[..j], ga) == SumBy(b[..j], gb)
    ensures ga(a[i]) == gb(b[i])
  {
    assert a[..i + 1][..i] == a[..i] && b[..i + 1][..i] == b[..i];
    assert SumBy(a[..i + 1], ga) == SumBy(a[..i], ga) + ga(a[i]);
    assert SumBy(b[..i + 1], gb) == SumBy(b[..i], gb) + gb(b[i]);
  }

  lemma {:induction false} DcgOfEqualGains<A, B>(b: seq<B>, gb: B -> real, a: seq<A>, ga: A -> real, lg: nat -> real)
    requires IsLog(lg) && |a| == |b| && forall i :: 0 <= i < |a| ==> ga(a[i]) == gb(b[i])
    ensures Dcg(a, ga, lg) == Dcg(b, gb, lg)
  {
    if a != [] {
      DcgOfEqualGains(b[..|b| - 1], gb, a[..|a| - 1], ga, lg);
    }
  }

  /** Dominated prefixes give a dominated DCG, and equality of the two forces equal gains everywhere. */
  lemma {:induction false} DominatedDcg<A, B>(b: seq<B>, gb: B -> real, a: seq<A>, ga: A -> real, lg: nat -> real)
    requires IsLog(lg) && Dominates(b, gb, a, ga)
    ensures Dcg(a, ga, lg) <= Dcg(b, gb, lg)
    ensures Dcg(a, ga, lg) == Dcg(b, gb, lg) <==> forall i :: 0 <= i < |a| ==> ga(a[i]) == gb(b[i])
  {
    StrictlyDominated(b, gb, a, ga, lg, 0);
    if forall i :: 0 <= i < |a| ==> ga(a[i]) == gb(b[i]) {
      DcgOfEqualGains(b, gb, a, ga, lg);
    }
    if Dcg(a, ga, lg) == Dcg(b, gb, lg) {
      forall j | 0 <= j <= |a| ensures SumBy(a[..j], ga) == SumBy(b[..j], gb) {
        StrictlyDominated(b, gb, a, ga, lg, j);
      }
      forall i | 0 <= i < |a| ensures ga(a[i]) == gb(b[i]) {
        EqualPrefixSums(b, gb, a, ga, i);
      }
    }
  }

  /** One strictly dominated prefix is enough for a strictly smaller DCG. */
  lemma {:induction false} StrictlyDominated<A, B>(b: seq<B>, gb: B -> real, a: seq<A>, ga: A -> real,
                                                   lg: nat -> real, j: nat)
    requires IsLog(lg) && Dominates(b, gb, a, ga) && j <= |a|
    ensures Dcg(a, ga, lg) <= Dcg(b, gb, lg)
    ensures SumBy(a[..j], ga) < SumBy(b[..j], gb) ==> Dcg(a, ga, lg) < Dcg(b, gb, lg)
  {
    hide Discounted;
    if a != [] {
      DominatesWhole(b, gb, a, ga);
      QuotientSign(SumBy(b, gb) - SumBy(a, ga), lg(|a| - 1));
      AbelInequality(b, gb, a, ga, lg, if j < |a| then j else 0);
      assert j == |a| ==> a[..j] == a && b[..j] == b;
    }
  }

  lemma QuotientSign(x: real, y: real)
    requires x >= 0.0 && y > 0.0
    ensures Discounted(x, y) >= 0.0
    ensures x > 0.0 ==> Discounted(x, y) > 0.0
  {
  }

  lemma {:induction false} DcgNonNegative<T>(s: seq<T>, gain: T -> real, lg: nat -> real)
    requires IsLog(lg) && forall x :: gain(x) >= 0.0
    ensures Dcg(s, gain, lg) >= 0.0
  {
    if s != [] {
      DcgNonNegative(s[..|s| - 1], gain, lg);
      QuotientSign(gain(s[|s| - 1]), lg(|s| - 1));
    }
  }
}
