/** What the processing order costs in padded token cells: the library's own bucketing, and the benchmark that sorts
    its corpus by characters instead. */
module BucketingCost {
  import opened Arithmetic
  import opened OnnxBatching
  import opened PaddingCost
  import opened Sequences
  import opened Sorting
  import opened Tokenizing

  function Counts(tok: Tokenizer, texts: seq<string>): (r: seq<nat>)
    ensures |r| == |texts| && forall i :: 0 <= i < |texts| ==> r[i] == |tok.encodeSingle(texts[i])|
  {
    Map(TokenCount(tok), texts)
  }

  /** The token counts in processing order. */
  ghost function CountsInOrder(tok: Tokenizer, texts: seq<string>, order: seq<nat>): (r: seq<nat>)
    requires IsOrder(order, |texts|)
    ensures |r| == |texts|
  {
    Map(TokenCount(tok), InOrder(texts, order))
  }

  lemma {:induction false} OrderPermutesCounts(tok: Tokenizer, texts: seq<string>, order: seq<nat>)
    requires IsOrder(order, |texts|)
    ensures multiset(CountsInOrder(tok, texts, order)) == multiset(Counts(tok, texts))
  {
    var counts := Counts(tok, texts);
    var at := (i: nat) => if i < |counts| then counts[i] else 0;
    OrderCovers(order, |texts|);
    assert CountsInOrder(tok, texts, order) == Map(at, order);
    assert counts == Map(at, UpTo(|texts|));
    MapPermutation(at, order, UpTo(|texts|));
  }

  // ----- the library's bucketing -----

  /** Bucketing against fixed batches of the same size: never more cells when the batch size divides the number of
      texts or exceeds it. */
  lemma {:induction false} BucketingSavesCells(tok: Tokenizer, texts: seq<string>, order: seq<nat>, b: nat)
    requires b > 0 && IsOrder(order, |texts|) && FollowsStrategy(tok, texts, LengthBucket, order)
    requires |texts| % b == 0 || |texts| <= b
    ensures Cells(CountsInOrder(tok, texts, order), b) <= Cells(Counts(tok, texts), b)
  {
    OrderPermutesCounts(tok, texts, order);
    SortedNeverLoses(CountsInOrder(tok, texts, order), Counts(tok, texts), b);
  }

  /** Bucketing wastes at most b * (most tokens - fewest tokens) cells, for every number of texts. */
  lemma {:induction false} BucketingWaste(tok: Tokenizer, texts: seq<string>, order: seq<nat>, b: nat, lo: nat, hi: nat)
    requires b > 0 && texts != [] && IsOrder(order, |texts|) && FollowsStrategy(tok, texts, LengthBucket, order)
    requires forall t :: t in texts ==> lo <= |tok.encodeSingle(t)| <= hi
    ensures Total(Counts(tok, texts)) <= Cells(CountsInOrder(tok, texts, order), b)
         <= Total(Counts(tok, texts)) + Mul(b, hi - lo)
  {
    var s := CountsInOrder(tok, texts, order);
    hide Cells, Total, Mul;
    SortedWaste(s, b);
    OrderPermutesCounts(tok, texts, order);
    TotalPermutation(s, Counts(tok, texts));
    assert InOrder(texts, order)[0] in texts && InOrder(texts, order)[|texts| - 1] in texts;
    MulMonotone(b, Gap(s[0], s[|s| - 1]), hi - lo);
  }

  /** No order of any n texts that encode takes fewer cells than longest first. */
  ghost predicate BucketingOptimal(tok: Tokenizer, n: nat, b: nat)
    requires b > 0
  {
    forall texts: seq<string>, order: seq<nat>, other: seq<nat> ::
      |texts| == n && Encodes(tok, texts) && IsOrder(order, n) && IsOrder(other, n)
      && NonIncreasing(CountsInOrder(tok, texts, order)) ==>
        Cells(CountsInOrder(tok, texts, order), b) <= Cells(CountsInOrder(tok, texts, other), b)
  }

  /** All texts that encode have the same number of tokens. */
  ghost predicate OneCount(tok: Tokenizer) {
    forall s, t :: !tok.throws(s) && !tok.throws(t) ==> |tok.encodeSingle(s)| == |tok.encodeSingle(t)|
  }

  function Rotated(n: nat): (r: seq<nat>)
    requires n > 0
    ensures |r| == n && r[n - 1] == 0 && forall i :: 0 <= i < n - 1 ==> r[i] == i + 1
  {
    seq(n - 1, i => i + 1) + [0]
  }

  lemma {:induction false} RotatedIsOrder(n: nat)
    requires n > 0
    ensures IsOrder(Rotated(n), n)
  {
    var tail := seq(n - 1, i => i + 1);
    assert UpTo(n) == [0] + tail;
  }

  lemma {:induction false} SameCounts(tok: Tokenizer, texts: seq<string>, order: seq<nat>, other: seq<nat>)
    requires OneCount(tok) && Encodes(tok, texts) && IsOrder(order, |texts|) && IsOrder(other, |texts|)
    ensures CountsInOrder(tok, texts, order) == CountsInOrder(tok, texts, other)
  {
    var s, p := InOrder(texts, order), InOrder(texts, other);
    forall i | 0 <= i < |texts| ensures |tok.encodeSingle(s[i])| == |tok.encodeSingle(p[i])| {
      assert s[i] in texts && p[i] in texts;
    }
  }

  /** One text with more tokens in front of n - 1 with fewer: putting it last takes fewer cells. */
  lemma {:induction false} BucketingLoses(tok: Tokenizer, s: string, t: string, n: nat, b: nat)
    requires b > 0 && n % b != 0 && n > b
    requires !tok.throws(s) && !tok.throws(t) && |tok.encodeSingle(s)| < |tok.encodeSingle(t)|
    ensures !BucketingOptimal(tok, n, b)
  {
    hide BucketingOptimal, Cells, CountsInOrder, NonIncreasing, IsOrder, Rotated, Copies, UpTo, Encodes;
    RotatedIsOrder(n);
    OneThenOthersEncode(tok, s, t, n);
    DescendingLoses(n, b, |tok.encodeSingle(s)|, |tok.encodeSingle(t)|);
    RotatedCounts(tok, s, t, n);
    OrderLoses(tok, OneThenOthers(s, t, n), UpTo(n), Rotated(n), n, b);
  }

  lemma OrderLoses(tok: Tokenizer, texts: seq<string>, order: seq<nat>, other: seq<nat>, n: nat, b: nat)
    requires b > 0 && |texts| == n && Encodes(tok, texts) && IsOrder(order, n) && IsOrder(other, n)
    requires NonIncreasing(CountsInOrder(tok, texts, order))
    requires Cells(CountsInOrder(tok, texts, order), b) > Cells(CountsInOrder(tok, texts, other), b)
    ensures !BucketingOptimal(tok, n, b)
  {
    hide Cells, CountsInOrder, NonIncreasing, IsOrder, Encodes;
  }

  lemma OneThenOthersEncode(tok: Tokenizer, s: string, t: string, n: nat)
    requires n > 0 && !tok.throws(s) && !tok.throws(t)
    ensures Encodes(tok, OneThenOthers(s, t, n)) && IsOrder(UpTo(n), n)
  {
  }

  function OneThenOthers(s: string, t: string, n: nat): (r: seq<string>)
    requires n > 0
    ensures |r| == n && r[0] == t && forall i :: 0 < i < n ==> r[i] == s
  {
    [t] + seq(n - 1, _ => s)
  }

  lemma {:induction false} RotatedCounts(tok: Tokenizer, s: string, t: string, n: nat)
    requires n > 0 && IsOrder(Rotated(n), n)
    ensures var texts, short := OneThenOthers(s, t, n), Copies<nat>(n - 1, |tok.encodeSingle(s)|);
      && CountsInOrder(tok, texts, UpTo(n)) == [|tok.encodeSingle(t)|] + short
      && CountsInOrder(tok, texts, Rotated(n)) == short + [|tok.encodeSingle(t)|]
  {
  }

  /** Length bucketing minimises padding for all corpora of n texts exactly when the batch size divides n, everything
      fits one batch, or all texts that encode have the same number of tokens. */
  lemma {:induction false} BucketingOptimalIff(tok: Tokenizer, n: nat, b: nat)
    requires b > 0
    ensures BucketingOptimal(tok, n, b) <==> n % b == 0 || n <= b || OneCount(tok)
  {
    if n % b == 0 || n <= b || OneCount(tok) {
      hide Cells, NonIncreasing, CountsInOrder, IsOrder;
      forall texts: seq<string>, order: seq<nat>, other: seq<nat> |
        |texts| == n && Encodes(tok, texts) && IsOrder(order, n) && IsOrder(other, n)
        && NonIncreasing(CountsInOrder(tok, texts, order))
        ensures Cells(CountsInOrder(tok, texts, order), b) <= Cells(CountsInOrder(tok, texts, other), b)
      {
        OrderPermutesCounts(tok, texts, order);
        OrderPermutesCounts(tok, texts, other);
        if OneCount(tok) {
          SameCounts(tok, texts, order, other);
        } else {
          SortedNeverLoses(CountsInOrder(tok, texts, order), CountsInOrder(tok, texts, other), b);
        }
      }
    } else {
      var s, t :| !tok.throws(s) && !tok.throws(t) && |tok.encodeSingle(s)| != |tok.encodeSingle(t)|;
      if |tok.encodeSingle(s)| < |tok.encodeSingle(t)| {
        BucketingLoses(tok, s, t, n, b);
      } else {
        BucketingLoses(tok, t, s, n, b);
      }
    }
  }

  // ----- the diagnostic benchmark -----

  function Shortness(t: string): real { -(|t| as real) }

  function Length(t: string): nat { |t| }

  ghost predicate CharacterSorted(texts: seq<string>) {
    NonDecreasing(Map(Length, texts))
  }

  /** The benchmark's corpus sort: fewest characters first. */
  method SortByLength(corpus: seq<string>) returns (sorted: array<string>)
    ensures fresh(sorted)
    ensures multiset(sorted[..]) == multiset(corpus) && CharacterSorted(sorted[..])
    ensures forall i, j :: 0 <= i < j < sorted.Length ==> |sorted[i]| <= |sorted[j]|
  {
    sorted := new string[|corpus|];
    for i := 0 to |corpus|
      invariant sorted[..i] == corpus[..i]
    {
      sorted[i] := corpus[i];
    }
    assert sorted[..] == corpus;
    SortInPlace(sorted, Shortness);
    ghost var s := sorted[..];
    forall i, j | 0 <= i < j < |s| ensures |s[i]| <= |s[j]| {
      assert Shortness(s[i]) >= Shortness(s[j]);
    }
  }

  /** One call of at most `chunk` texts is one batch, padded to its most tokens, in whatever order. */
  lemma {:induction false} OneBatchCost(tok: Tokenizer, texts: seq<string>, order: seq<nat>, chunk: nat)
    requires IsOrder(order, |texts|) && 0 < |texts| <= chunk
    ensures Cells(CountsInOrder(tok, texts, order), chunk) == Mul(|texts|, MaxOf(Counts(tok, texts)))
  {
    hide Mul, MaxOf, Cells;
    var counts := Counts(tok, texts);
    OrderPermutesCounts(tok, texts, order);
    OneChunk(CountsInOrder(tok, texts, order), counts, chunk);
    CellsStep(counts, chunk);
    CellsStep([], chunk);
    assert counts[..|texts|] == counts && counts[|texts|..] == [];
  }

  /** One call of the loop, on one chunk; its result is thrown away. */
  method EmbedChunk(m: Model, texts: seq<string>, chunk: nat) returns (ok: bool, cells: nat)
    requires ValidModel(m) && 0 < |texts| <= chunk
    ensures ok ==> cells == Mul(|texts|, MaxOf(Counts(m.tok, texts)))
  {
    hide Mul, MaxOf, Cells, ValidModel, Placed, AllVectors, FollowsStrategy;
    var result := new real[Mul(|texts|, m.dim)];
    ghost var order, runs;
    ok, cells, order, runs := OnnxEmbed(m, texts, LengthBucket, chunk, result);
    if ok {
      OneBatchCost(m.tok, texts, order, chunk);
    }
  }

  /** The benchmark's loop: every chunk goes to the library in a call of its own (the benchmark's chunk is 8). */
  method EmbedInChunks(m: Model, texts: seq<string>, chunk: nat) returns (ok: bool, cells: nat)
    requires ValidModel(m) && chunk > 0
    ensures ok ==> cells == Cells(Counts(m.tok, texts), chunk)
  {
    hide Cells, MaxOf, Mul, ValidModel;
    var total := |texts|;
    ghost var counts := Counts(m.tok, texts);
    ok, cells := true, 0;
    assert counts[0..] == counts;
    var off := 0;
    ghost var at := 0;
    while off < total
      invariant at == if off < total then off else total
      invariant ok ==> cells + Cells(counts[at..], chunk) == Cells(counts, chunk)
    {
      var n := if chunk < total - off then chunk else total - off;
      var okay, size := EmbedChunk(m, texts[off..off + n], chunk);
      assert Counts(m.tok, texts[off..off + n]) == counts[off..off + n];
      NextChunk(counts, chunk, off, off + n);
      ok, cells := ok && okay, cells + size;
      at := off + n;
      off := off + chunk;
    }
    NoCells(counts[at..], chunk);
  }

  /** Texts with no more characters have no more tokens. */
  ghost predicate TokensFollowCharacters(tok: Tokenizer, texts: seq<string>) {
    forall s, t :: s in texts && t in texts && |s| <= |t| ==> |tok.encodeSingle(s)| <= |tok.encodeSingle(t)|
  }

  ghost predicate CountsWithin(tok: Tokenizer, texts: seq<string>, lo: nat, hi: nat) {
    forall t :: t in texts ==> lo <= |tok.encodeSingle(t)| <= hi
  }

  lemma Follows(tok: Tokenizer, texts: seq<string>, s: string, t: string)
    requires TokensFollowCharacters(tok, texts) && s in texts && t in texts && |s| <= |t|
    ensures |tok.encodeSingle(s)| <= |tok.encodeSingle(t)|
  {
  }

  lemma {:induction false} FollowingCountsAscend(tok: Tokenizer, corpus: seq<string>, sorted: seq<string>)
    requires multiset(sorted) == multiset(corpus) && CharacterSorted(sorted) && TokensFollowCharacters(tok, corpus)
    ensures NonDecreasing(Counts(tok, sorted))
  {
    var counts, lengths := Counts(tok, sorted), Map(Length, sorted);
    hide TokensFollowCharacters, Counts;
    PermutationMembers(sorted, corpus);
    forall i, j | 0 <= i < j < |counts| ensures counts[i] <= counts[j] {
      assert lengths[i] <= lengths[j];
      Follows(tok, corpus, sorted[i], sorted[j]);
    }
  }

  lemma {:induction false} CountsGap(tok: Tokenizer, corpus: seq<string>, sorted: seq<string>, lo: nat, hi: nat)
    requires corpus != [] && multiset(sorted) == multiset(corpus) && CountsWithin(tok, corpus, lo, hi)
    ensures |sorted| == |corpus| && lo <= hi
    ensures Gap(Counts(tok, sorted)[0], Counts(tok, sorted)[|sorted| - 1]) <= hi - lo
  {
    PermutationLength(sorted, corpus);
    PermutationMembers(sorted, corpus);
    assert sorted[0] in corpus && sorted[|sorted| - 1] in corpus;
  }

  lemma {:induction false} FollowingWaste(tok: Tokenizer, corpus: seq<string>, sorted: seq<string>, b: nat,
                                          lo: nat, hi: nat)
    requires b > 0 && corpus != [] && multiset(sorted) == multiset(corpus) && CharacterSorted(sorted)
    requires TokensFollowCharacters(tok, corpus) && CountsWithin(tok, corpus, lo, hi)
    ensures lo <= hi
    ensures Total(Counts(tok, corpus)) <= Cells(Counts(tok, sorted), b) <= Total(Counts(tok, corpus)) + Mul(b, hi - lo)
  {
    hide Cells, Total, Mul, Gap, CountsWithin, TokensFollowCharacters, CharacterSorted, Counts, NonDecreasing;
    FollowingCountsAscend(tok, corpus, sorted);
    CountsGap(tok, corpus, sorted, lo, hi);
    CountsPermute(tok, sorted, corpus);
    AscendingWaste(Counts(tok, sorted), Counts(tok, corpus), b, hi - lo);
  }

  lemma {:induction false} CountsPermute(tok: Tokenizer, sorted: seq<string>, corpus: seq<string>)
    requires multiset(sorted) == multiset(corpus)
    ensures multiset(Counts(tok, sorted)) == multiset(Counts(tok, corpus))
  {
    MapPermutation(TokenCount(tok), sorted, corpus);
  }

  lemma {:induction false} AscendingWaste(counts: seq<nat>, other: seq<nat>, b: nat, gap: nat)
    requires b > 0 && counts != [] && NonDecreasing(counts) && multiset(counts) == multiset(other)
    requires Gap(counts[0], counts[|counts| - 1]) <= gap
    ensures Total(other) <= Cells(counts, b) <= Total(other) + Mul(b, gap)
  {
    hide Cells, Total, Mul, Gap;
    TotalPermutation(counts, other);
    SortedWaste(counts, b);
    MulMonotone(b, Gap(counts[0], counts[|counts| - 1]), gap);
  }

  /** The benchmark end to end. It pays for its corpus in character order, cut into chunks; when token counts follow
      character counts that wastes at most chunk * (most tokens - fewest tokens) cells. */
  method SortedBenchmark(m: Model, corpus: seq<string>, chunk: nat, ghost lo: nat, ghost hi: nat)
    returns (ok: bool, cells: nat, ghost order: seq<string>)
    requires ValidModel(m) && chunk > 0
    ensures multiset(order) == multiset(corpus) && CharacterSorted(order)
    ensures ok ==> cells == Cells(Counts(m.tok, order), chunk)
    ensures ok && corpus != [] && TokensFollowCharacters(m.tok, corpus) && CountsWithin(m.tok, corpus, lo, hi) ==>
      lo <= hi && Total(Counts(m.tok, corpus)) <= cells <= Total(Counts(m.tok, corpus)) + Mul(chunk, hi - lo)
  {
    hide Cells, Total, Mul, ValidModel, CharacterSorted, Counts;
    var sorted := SortByLength(corpus);
    order := sorted[..];
    ok, cells := EmbedInChunks(m, sorted[..], chunk);
    if corpus != [] && TokensFollowCharacters(m.tok, corpus) && CountsWithin(m.tok, corpus, lo, hi) {
      FollowingWaste(m.tok, corpus, order, chunk, lo, hi);
    }
  }

  // ----- when sorting by characters bounds the token padding at all -----

  /** A corpus of texts of the pool, all of which encode. */
  ghost predicate DrawnFrom(tok: Tokenizer, texts: seq<string>, pool: set<string>) {
    forall i :: 0 <= i < |texts| ==> texts[i] in pool && !tok.throws(texts[i])
  }

  ghost predicate WastesAtMost(tok: Tokenizer, pool: set<string>, b: nat, bound: nat)
    requires b > 0
  {
    forall texts :: DrawnFrom(tok, texts, pool) && CharacterSorted(texts) ==>
      Cells(Counts(tok, texts), b) <= Total(Counts(tok, texts)) + bound
  }

  /** Texts of the pool that encode and have as many characters have as many tokens. */
  ghost predicate TiesAgree(tok: Tokenizer, pool: set<string>) {
    forall s, t :: s in pool && t in pool && !tok.throws(s) && !tok.throws(t) && |s| == |t| ==>
      |tok.encodeSingle(s)| == |tok.encodeSingle(t)|
  }

  lemma {:induction false} LargestIn(pool: set<string>, f: string -> nat) returns (m: nat)
    ensures forall t :: t in pool ==> f(t) <= m
    decreases |pool|
  {
    if pool == {} {
      m := 0;
    } else {
      var t :| t in pool;
      m := LargestIn(pool - {t}, f);
      if f(t) > m {
        m := f(t);
      }
    }
  }

  ghost predicate AtMost(tok: Tokenizer, pool: set<string>, most: nat) {
    forall t :: t in pool ==> |tok.encodeSingle(t)| <= most
  }

  /** The counts are at most `most` and change only where the characters do. */
  ghost predicate Tied(chars: seq<nat>, counts: seq<nat>, most: nat) {
    && |chars| == |counts|
    && (forall i :: 0 <= i < |counts| ==> counts[i] <= most)
    && (forall i :: 0 < i < |counts| && chars[i - 1] == chars[i] ==> counts[i - 1] == counts[i])
  }

  /** Such counts move up and down no more than the characters rise, times the most tokens. */
  lemma {:induction false} TiedVariation(chars: seq<nat>, counts: seq<nat>, most: nat)
    requires Tied(chars, counts, most) && NonDecreasing(chars) && chars != []
    ensures chars[0] <= chars[|chars| - 1]
    ensures Variation(counts) <= Mul(most, chars[|chars| - 1] - chars[0])
  {
    hide Mul;
    MulZero(most);
    var n := |chars| - 1;
    if n > 0 {
      TiedVariation(chars[..n], counts[..n], most);
      var before, after := chars[n - 1] - chars[0], chars[n] - chars[0];
      if before < after {
        MulSucc(most, before);
        MulMonotone(most, before + 1, after);
      }
    }
  }

  lemma {:induction false} TextsAreTied(tok: Tokenizer, pool: set<string>, texts: seq<string>, most: nat)
    requires TiesAgree(tok, pool) && DrawnFrom(tok, texts, pool) && AtMost(tok, pool, most)
    ensures Tied(Map(Length, texts), Counts(tok, texts), most)
  {
    var chars, counts := Map(Length, texts), Counts(tok, texts);
    hide TiesAgree;
    forall i | 0 < i < |counts| && chars[i - 1] == chars[i] ensures counts[i - 1] == counts[i] {
      CountsTie(tok, pool, texts[i - 1], texts[i]);
    }
  }

  lemma CountsTie(tok: Tokenizer, pool: set<string>, s: string, t: string)
    requires TiesAgree(tok, pool) && s in pool && t in pool && !tok.throws(s) && !tok.throws(t) && |s| == |t|
    ensures |tok.encodeSingle(s)| == |tok.encodeSingle(t)|
  {
  }

  lemma {:induction false} TiedWaste(chars: seq<nat>, counts: seq<nat>, b: nat, most: nat, longest: nat)
    requires b > 0 && Tied(chars, counts, most) && NonDecreasing(chars)
    requires forall i :: 0 <= i < |chars| ==> chars[i] <= longest
    ensures Cells(counts, b) <= Total(counts) + Mul(b, Mul(most, longest))
  {
    assert counts == [] ==> Variation(counts) == 0;
    hide Mul, Cells, Total, Variation;
    WasteAtMostVariation(counts, b);
    if chars != [] {
      TiedVariation(chars, counts, most);
      MulMonotone(most, chars[|chars| - 1] - chars[0], longest);
    }
    MulMonotone(b, Variation(counts), Mul(most, longest));
  }

  lemma {:induction false} TiesAgreeBound(tok: Tokenizer, pool: set<string>, b: nat) returns (bound: nat)
    requires b > 0 && TiesAgree(tok, pool)
    ensures WastesAtMost(tok, pool, b, bound)
  {
    var most := LargestIn(pool, TokenCount(tok));
    var longest := LargestIn(pool, Length);
    bound := Mul(b, Mul(most, longest));
    forall t | t in pool ensures |tok.encodeSingle(t)| <= most && |t| <= longest {
      assert TokenCount(tok)(t) <= most && Length(t) <= longest;
    }
    assert AtMost(tok, pool, most);
    hide Mul, Cells, Total, Counts, TiesAgree, AtMost, Tied;
    forall texts | DrawnFrom(tok, texts, pool) && CharacterSorted(texts)
      ensures Cells(Counts(tok, texts), b) <= Total(Counts(tok, texts)) + bound
    {
      TextsAreTied(tok, pool, texts, most);
      TiedWaste(Map(Length, texts), Counts(tok, texts), b, most, longest);
    }
  }

  /** k chunks that each mix a text of many tokens with texts of few. */
  function MixedTexts(k: nat, b: nat, s: string, t: string): (r: seq<string>)
    requires b > 0
    ensures forall i :: 0 <= i < |r| ==> r[i] == s || r[i] == t
  {
    if k == 0 then [] else [t] + seq(b - 1, _ => s) + MixedTexts(k - 1, b, s, t)
  }

  lemma {:induction false} CountsOfMixed(tok: Tokenizer, k: nat, b: nat, s: string, t: string)
    requires b > 0
    ensures Counts(tok, MixedTexts(k, b, s, t)) == Interleaved(k, b, |tok.encodeSingle(s)|, |tok.encodeSingle(t)|)
  {
    if k > 0 {
      var chunk := [t] + seq(b - 1, _ => s);
      CountsOfMixed(tok, k - 1, b, s, t);
      assert Counts(tok, chunk) == MixedChunk(b, |tok.encodeSingle(s)|, |tok.encodeSingle(t)|);
      MapConcat(TokenCount(tok), chunk, MixedTexts(k - 1, b, s, t));
    }
  }

  /** Two texts with as many characters but different tokens: character-sorted corpora of these two waste more cells
      than any bound. */
  lemma {:induction false} TiesWasteWithoutBound(tok: Tokenizer, pool: set<string>, s: string, t: string, b: nat,
                                                 bound: nat)
    requires b > 1 && s in pool && t in pool && !tok.throws(s) && !tok.throws(t)
    requires |s| == |t| && |tok.encodeSingle(s)| < |tok.encodeSingle(t)|
    ensures !WastesAtMost(tok, pool, b, bound)
  {
    hide Cells, Total;
    var texts := MixedTexts(bound + 1, b, s, t);
    CountsOfMixed(tok, bound + 1, b, s, t);
    InterleavedWaste(bound + 1, b, |tok.encodeSingle(s)|, |tok.encodeSingle(t)|);
    assert DrawnFrom(tok, texts, pool);
    assert forall i :: 0 <= i < |texts| ==> Map(Length, texts)[i] == |s|;
    assert CharacterSorted(texts);
  }

  /** Sorting by characters bounds the token padding of all corpora drawn from a pool of texts exactly when batches are
      single texts or texts that encode and have as many characters have as many tokens. */
  lemma {:induction false} CharacterSortBoundedIff(tok: Tokenizer, pool: set<string>, b: nat)
    requires b > 0
    ensures (exists bound :: WastesAtMost(tok, pool, b, bound)) <==> b == 1 || TiesAgree(tok, pool)
  {
    hide WastesAtMost;
    if b == 1 {
      SinglesNeverWaste(tok, pool);
    } else if TiesAgree(tok, pool) {
      var bound := TiesAgreeBound(tok, pool, b);
    } else {
      var s, t :| s in pool && t in pool && !tok.throws(s) && !tok.throws(t) && |s| == |t|
        && |tok.encodeSingle(s)| != |tok.encodeSingle(t)|;
      forall bound ensures !WastesAtMost(tok, pool, b, bound) {
        if |tok.encodeSingle(s)| < |tok.encodeSingle(t)| {
          TiesWasteWithoutBound(tok, pool, s, t, b, bound);
        } else {
          TiesWasteWithoutBound(tok, pool, t, s, b, bound);
        }
      }
    }
  }

  lemma {:induction false} SinglesNeverWaste(tok: Tokenizer, pool: set<string>)
    ensures WastesAtMost(tok, pool, 1, 0)
  {
    forall texts | DrawnFrom(tok, texts, pool) && CharacterSorted(texts)
      ensures Cells(Counts(tok, texts), 1) <= Total(Counts(tok, texts)) + 0
    {
      SinglesWaste(Counts(tok, texts));
    }
  }

  // ----- sums -----

  lemma TotalIsSum(s: seq<nat>)
    ensures Total(s) as real == SumBy(s, (x: nat) => x as real)
  {
  }

  lemma {:induction false} TotalPermutation(r: seq<nat>, s: seq<nat>)
    requires multiset(r) == multiset(s)
    ensures Total(r) == Total(s)
  {
    var value := (x: nat) => x as real;
    SumByPermutation(r, s, value);
    TotalIsSum(r);
    TotalIsSum(s);
  }
}
