/** The sparse options that a caller may pass along with the texts, and what they are documented to do. */
module SparseOptions {
  import opened Pruning
  import opened Sequences
  import opened Splade
  import opened SparseTerms

  /** `top_k`: most terms to keep, 0 for all; `min_weight`: smallest weight to keep. */
  datatype Options = Options(topK: int, minWeight: real)

  /** The documentation gives negative limits no meaning. */
  predicate Meaningful(o: Options) { o.topK >= 0 }

  /** The vector as the options document it. */
  function Documented(o: Options, r: SparseResult): seq<Term>
    requires Meaningful(o)
  {
    Prune(o.minWeight, if o.topK == 0 then |Terms(r)| else o.topK, Terms(r))
  }

  /** The vector has the documented terms, in whatever order. */
  ghost predicate AsDocumented(o: Options, r: SparseResult)
    requires Meaningful(o)
  {
    multiset(Terms(r)) == multiset(Documented(o, r))
  }

  lemma {:induction false} FilterKeepsAll<T>(p: T -> bool, s: seq<T>)
    ensures |Filter(p, s)| <= |s|
    ensures |Filter(p, s)| == |s| <==> forall i :: 0 <= i < |s| ==> p(s[i])
  {
    if s != [] {
      FilterKeepsAll(p, s[1..]);
      assert forall i :: 0 < i < |s| ==> s[i] == s[1..][i - 1];
      if |Filter(p, s)| == |s| {
        assert p(s[0]);
        assert forall i :: 0 <= i < |s[1..]| ==> p(s[1..][i]);
      }
    }
  }

  /** Pruning keeps everything exactly when there are at most k terms and all of them reach the threshold. */
  lemma {:induction false} PruneKeepsAllIff(threshold: real, k: nat, terms: seq<Term>)
    ensures multiset(Prune(threshold, k, terms)) == multiset(terms)
       <==> |terms| <= k && forall i :: 0 <= i < |terms| ==> Magnitude(terms[i]) >= threshold
  {
    var dropped := KeptOutweighDropped(threshold, k, terms);
    var kept, survivors := Prune(threshold, k, terms), Filter(Above(threshold), terms);
    FilterKeepsAll(Above(threshold), terms);
    assert forall i :: 0 <= i < |terms| ==> (Above(threshold)(terms[i]) <==> Magnitude(terms[i]) >= threshold);
    assert |multiset(kept)| == |kept| && |multiset(terms)| == |terms|;
    if |terms| <= k && |survivors| == |terms| {
      FilterAll(Above(threshold), terms);
      assert |multiset(kept)| + |multiset(dropped)| == |multiset(survivors)|;
      assert |multiset(dropped)| == 0;
    }
  }

  /** The embedding call never reads the options, so a stored vector is the documented one exactly when it is within
      the limits anyway. */
  lemma {:induction false} AsDocumentedIff(o: Options, scores: seq<real>)
    requires Meaningful(o)
    ensures var r := Extracted(scores);
      AsDocumented(o, r) <==>
        && (o.topK == 0 || |r.values| <= o.topK)
        && forall i :: 0 <= i < |r.values| ==> r.values[i] >= o.minWeight
  {
    var r := Extracted(scores);
    var terms := Terms(r);
    ExtractedTerms(scores);
    PruneKeepsAllIff(o.minWeight, if o.topK == 0 then |terms| else o.topK, terms);
    assert forall i :: 0 <= i < |terms| ==> Magnitude(terms[i]) == r.values[i];
  }

  ghost predicate NonNegative(scores: seq<real>) {
    forall i :: 0 <= i < |scores| ==> scores[i] >= 0.0
  }

  /** Whatever scores a text gets over a vocabulary of this size, the stored vector is the documented one. */
  ghost predicate AlwaysHonoured(o: Options, vocab: nat)
    requires Meaningful(o)
  {
    forall scores :: |scores| == vocab && NonNegative(scores) ==> AsDocumented(o, Extracted(scores))
  }

  lemma {:induction false} ExtractedCopies(n: nat, x: real)
    requires x > 0.0
    ensures |Extracted(Copies(n, x)).values| == n
  {
    if n > 0 {
      assert Copies(n, x)[..n - 1] == Copies(n - 1, x);
      ExtractedCopies(n - 1, x);
    }
  }

  lemma ExtractedAtMost(scores: seq<real>)
    ensures |Extracted(scores).values| <= |scores|
  {
  }

  /** The options are honoured for all texts exactly when they ask for nothing: no limit on the terms, or one that the
      vocabulary cannot exceed, and no weight to reach. */
  lemma {:induction false} AlwaysHonouredIff(o: Options, vocab: nat)
    requires Meaningful(o) && vocab > 0
    ensures AlwaysHonoured(o, vocab) <==> (o.topK == 0 || o.topK >= vocab) && o.minWeight <= 0.0
  {
    hide AsDocumented, Extracted;
    if o.minWeight > 0.0 {
      var light := Copies(vocab, o.minWeight / 2.0);
      ExtractedCopies(vocab, o.minWeight / 2.0);
      AsDocumentedIff(o, light);
      ExtractedTerms(light);
      assert NonNegative(light) && Extracted(light).values[0] < o.minWeight;
    } else if 0 < o.topK < vocab {
      var many := Copies(vocab, 1.0);
      ExtractedCopies(vocab, 1.0);
      AsDocumentedIff(o, many);
      assert NonNegative(many);
    } else {
      forall scores | |scores| == vocab && NonNegative(scores) ensures AsDocumented(o, Extracted(scores)) {
        AsDocumentedIff(o, scores);
        ExtractedTerms(scores);
        ExtractedAtMost(scores);
      }
    }
  }

  /** One visible token with two positive logits: both terms are stored although one was asked for. */
  lemma {:induction false} TopOneIsIgnored(log1p: real -> real, x: real, y: real)
    requires IsLog1p(log1p) && x > 0.0 && y > 0.0
    ensures !AsDocumented(Options(1, 0.0), TextResult(log1p, [[x, y]], 2))
  {
    var rows := [[x, y]];
    assert rows[..0] == [];
    assert Score(log1p, rows, 0) == Max(0.0, Activation(log1p, x)) == log1p(x);
    assert Score(log1p, rows, 1) == Max(0.0, Activation(log1p, y)) == log1p(y);
    var scores := ScoreVector(log1p, rows, 2);
    assert scores[..1] == [log1p(x)] && scores[..1][..0] == [];
    assert |Extracted(scores[..1]).values| == 1;
    AsDocumentedIff(Options(1, 0.0), scores);
  }
}
