/** What padding costs: every batch is padded to its longest text, so a batch of m texts takes m * longest cells.
    Length bucketing sorts by length and cuts fixed chunks; this module says exactly when that is optimal. */
module PaddingCost {
  import opened Sequences
  import opened Arithmetic

  function MaxOf(s: seq<nat>): nat {
    if s == [] then 0
    else
      var front := MaxOf(s[..|s| - 1]);
      if s[|s| - 1] > front then s[|s| - 1] else front
  }

  function Total(s: seq<nat>): nat {
    if s == [] then 0 else Total(s[..|s| - 1]) + s[|s| - 1]
  }

  function ChunkSize(s: seq<nat>, b: nat): (m: nat)
    ensures m <= |s| && (b > 0 && s != [] ==> m > 0)
  {
    if b < |s| then b else |s|
  }

  /** Cells allocated when the lengths are cut into chunks of b, in the given order. */
  function Cells(s: seq<nat>, b: nat): nat
    requires b > 0
  {
    if s == [] then 0
    else
      var m := ChunkSize(s, b);
      Mul(m, MaxOf(s[..m])) + Cells(s[m..], b)
  }

  lemma CellsStep(s: seq<nat>, b: nat)
    requires b > 0
    ensures s == [] ==> Cells(s, b) == 0
    ensures s != [] ==>
      var m := ChunkSize(s, b);
      Cells(s, b) == Mul(m, MaxOf(s[..m])) + Cells(s[m..], b)
  {
  }

  /** One chunk, full or not, takes as many cells as it has texts times the longest of them. */
  lemma {:induction false} CellsOfChunk(s: seq<nat>, b: nat, longest: nat)
    requires 0 < |s| <= b && longest in s && forall i :: 0 <= i < |s| ==> s[i] <= longest
    ensures Cells(s, b) == |s| * longest
  {
    MaxOfIs(s, longest);
    assert s[..|s|] == s && s[|s|..] == [];
  }

  /** Some full chunks and what follows them take their own cells. */
  lemma {:induction false} CellsAddUp(a: seq<nat>, s: seq<nat>, b: nat, chunks: nat)
    requires b > 0 && |a| == chunks * b
    ensures Cells(a + s, b) == Cells(a, b) + Cells(s, b)
  {
    if chunks == 0 {
      assert a + s == s;
    } else {
      assert |a| == (chunks - 1) * b + b && (chunks - 1) * b >= 0;
      assert (a + s)[..b] == a[..b] && (a + s)[b..] == a[b..] + s;
      CellsStep(a, b);
      CellsStep(a + s, b);
      CellsAddUp(a[b..], s, b, chunks - 1);
    }
  }

  ghost predicate NonIncreasing(s: seq<nat>) {
    forall i, j :: 0 <= i < j < |s| ==> s[i] >= s[j]
  }

  ghost predicate NonDecreasing(s: seq<nat>) {
    forall i, j :: 0 <= i < j < |s| ==> s[i] <= s[j]
  }

  lemma {:induction false} MaxOfBounds(s: seq<nat>)
    ensures forall i :: 0 <= i < |s| ==> s[i] <= MaxOf(s)
    ensures s != [] ==> MaxOf(s) in s
  {
    if s != [] {
      MaxOfBounds(s[..|s| - 1]);
    }
  }

  lemma {:induction false} MaxOfIs(s: seq<nat>, m: nat)
    requires m in s && forall i :: 0 <= i < |s| ==> s[i] <= m
    ensures MaxOf(s) == m
  {
    MaxOfBounds(s);
  }

  // ----- counting chunks instead of cells -----

  function AtLeast(t: nat): nat -> bool { x => x >= t }

  /** Number of chunks whose longest text has at least t cells. */
  function ChunksAtLeast(s: seq<nat>, b: nat, t: nat): nat
    requires b > 0
  {
    if s == [] then 0
    else
      var m := ChunkSize(s, b);
      (if MaxOf(s[..m]) >= t then 1 else 0) + ChunksAtLeast(s[m..], b, t)
  }

  lemma ChunksStep(s: seq<nat>, b: nat, t: nat)
    requires b > 0
    ensures s == [] ==> ChunksAtLeast(s, b, t) == 0
    ensures s != [] ==>
      var m := ChunkSize(s, b);
      ChunksAtLeast(s, b, t) == (if MaxOf(s[..m]) >= t then 1 else 0) + ChunksAtLeast(s[m..], b, t)
  {
  }

  /** Sum of ChunksAtLeast over the thresholds 1..top. */
  function Layers(s: seq<nat>, b: nat, top: nat): nat
    requires b > 0
  {
    if top == 0 then 0 else Layers(s, b, top - 1) + ChunksAtLeast(s, b, top)
  }

  lemma {:induction false} NoLayers(b: nat, top: nat)
    requires b > 0
    ensures Layers([], b, top) == 0
  {
    if top > 0 {
      NoLayers(b, top - 1);
    }
  }

  /** A chunk takes part in as many layers as its longest text is long. */
  lemma {:induction false} FirstChunkLayers(s: seq<nat>, b: nat, top: nat)
    requires b > 0 && s != []
    ensures var m := ChunkSize(s, b);
      Layers(s, b, top) == (if MaxOf(s[..m]) < top then MaxOf(s[..m]) else top) + Layers(s[m..], b, top)
  {
    if top > 0 {
      FirstChunkLayers(s, b, top - 1);
    }
  }

  lemma {:induction false} MaxOfSplit(s: seq<nat>, m: nat)
    requires m <= |s|
    ensures MaxOf(s[..m]) <= MaxOf(s) && MaxOf(s[m..]) <= MaxOf(s)
  {
    MaxOfBounds(s);
    MaxOfBounds(s[..m]);
    MaxOfBounds(s[m..]);
    if s[..m] != [] {
      assert MaxOf(s[..m]) in s;
    }
    if s[m..] != [] {
      assert MaxOf(s[m..]) in s;
    }
  }

  /** When the chunks are all full, the cells are b times the layers. */
  lemma {:induction false} CellsAreLayers(s: seq<nat>, b: nat, q: nat, top: nat)
    requires b > 0 && |s| == Mul(q, b) && MaxOf(s) <= top
    ensures Cells(s, b) == Mul(b, Layers(s, b, top))
    decreases q
  {
    hide Mul;
    MulZero(b);
    if q == 0 {
      NoLayers(b, top);
    } else {
      MulSucc(b, q - 1);
      MaxOfSplit(s, b);
      CellsAreLayers(s[b..], b, q - 1, top);
      FirstChunkLayers(s, b, top);
      MulAdd(b, MaxOf(s[..b]), Layers(s[b..], b, top));
    }
  }

  lemma {:induction false} CountSplit(s: seq<nat>, m: nat, t: nat)
    requires m <= |s|
    ensures CountBy(AtLeast(t), s) == CountBy(AtLeast(t), s[..m]) + CountBy(AtLeast(t), s[m..])
  {
    assert s == s[..m] + s[m..];
    CountConcat(AtLeast(t), s[..m], s[m..]);
  }

  lemma {:induction false} CountNone(s: seq<nat>, t: nat)
    requires forall i :: 0 <= i < |s| ==> s[i] < t
    ensures CountBy(AtLeast(t), s) == 0
  {
    if s != [] {
      CountNone(s[..|s| - 1], t);
    }
  }

  lemma {:induction false} CountAll(s: seq<nat>, t: nat)
    requires forall i :: 0 <= i < |s| ==> s[i] >= t
    ensures CountBy(AtLeast(t), s) == |s|
  {
    if s != [] {
      CountAll(s[..|s| - 1], t);
    }
  }

  lemma {:induction false} CountSome(s: seq<nat>, t: nat)
    requires exists i :: 0 <= i < |s| && s[i] >= t
    ensures CountBy(AtLeast(t), s) >= 1
  {
    var n := |s| - 1;
    if s[n] < t {
      var i :| 0 <= i < |s| && s[i] >= t;
      assert s[..n][i] >= t;
      CountSome(s[..n], t);
    }
  }

  /** Any order: the texts of at least t cells need at least that many slots in chunks of at least t. */
  lemma {:induction false} ChunksCoverTexts(s: seq<nat>, b: nat, t: nat)
    requires b > 0
    ensures CountBy(AtLeast(t), s) <= Mul(b, ChunksAtLeast(s, b, t))
    decreases |s|
  {
    hide Mul;
    MulZero(b);
    if s != [] {
      var m := ChunkSize(s, b);
      CountSplit(s, m, t);
      ChunksCoverTexts(s[m..], b, t);
      MaxOfBounds(s[..m]);
      if MaxOf(s[..m]) < t {
        CountNone(s[..m], t);
      }
      MulSucc(b, ChunksAtLeast(s[m..], b, t));
    }
  }

  lemma {:induction false} NoChunks(s: seq<nat>, b: nat, t: nat)
    requires b > 0 && forall i :: 0 <= i < |s| ==> s[i] < t
    ensures ChunksAtLeast(s, b, t) == 0
    decreases |s|
  {
    if s != [] {
      var m := ChunkSize(s, b);
      MaxOfBounds(s[..m]);
      NoChunks(s[m..], b, t);
    }
  }

  lemma {:induction false} DescendingFirstChunk(s: seq<nat>, b: nat, t: nat)
    requires b > 0 && NonIncreasing(s) && s != []
    ensures var m := ChunkSize(s, b);
      if s[m - 1] >= t then CountBy(AtLeast(t), s[..m]) == m && MaxOf(s[..m]) >= t
      else ChunksAtLeast(s[m..], b, t) == 0 && (MaxOf(s[..m]) >= t ==> CountBy(AtLeast(t), s[..m]) >= 1)
  {
    var m := ChunkSize(s, b);
    MaxOfBounds(s[..m]);
    assert s[..m][m - 1] == s[m - 1];
    if s[m - 1] >= t {
      CountAll(s[..m], t);
    } else {
      NoChunks(s[m..], b, t);
      if MaxOf(s[..m]) >= t {
        CountSome(s[..m], t);
      }
    }
  }

  /** Descending order wastes no chunk: every chunk of at least t but the last is full of such texts. */
  lemma {:induction false} DescendingChunks(s: seq<nat>, b: nat, t: nat)
    requires b > 0 && NonIncreasing(s)
    ensures Mul(b, ChunksAtLeast(s, b, t)) < CountBy(AtLeast(t), s) + b
    decreases |s|
  {
    hide Mul, MaxOf, ChunksAtLeast, CountBy;
    MulZero(b);
    ChunksStep(s, b, t);
    if s != [] {
      var m := ChunkSize(s, b);
      CountSplit(s, m, t);
      DescendingFirstChunk(s, b, t);
      MulSucc(b, ChunksAtLeast(s[m..], b, t));
      ChunksStep(s[m..], b, t);
      if s[m - 1] >= t {
        DescendingChunks(s[m..], b, t);
      }
    }
  }

  lemma {:induction false} AllChunks(s: seq<nat>, b: nat, q: nat, t: nat)
    requires b > 0 && |s| == Mul(q, b) && forall i :: 0 <= i < |s| ==> s[i] >= t
    ensures ChunksAtLeast(s, b, t) == q
  {
    hide Mul;
    MulZero(b);
    if q > 0 {
      MulSucc(b, q - 1);
      MaxOfBounds(s[..b]);
      AllChunks(s[b..], b, q - 1, t);
    }
  }

  /** Ascending order is as good, provided that every chunk is full. */
  lemma {:induction false} AscendingChunks(s: seq<nat>, b: nat, q: nat, t: nat)
    requires b > 0 && NonDecreasing(s) && |s| == Mul(q, b)
    ensures Mul(b, ChunksAtLeast(s, b, t)) < CountBy(AtLeast(t), s) + b
    decreases q
  {
    hide Mul, ChunksAtLeast, CountBy;
    MulZero(b);
    ChunksStep(s, b, t);
    if q > 0 {
      MulSucc(b, q - 1);
      CountSplit(s, b, t);
      MaxOfBounds(s[..b]);
      if MaxOf(s[..b]) >= t {
        CountSome(s[..b], t);
        CountAll(s[b..], t);
        AllChunks(s[b..], b, q - 1, t);
        MulCommutes(b, q);
      } else {
        AscendingChunks(s[b..], b, q - 1, t);
      }
    }
  }

  lemma {:induction false} FewerLayers(s: seq<nat>, p: seq<nat>, b: nat, top: nat)
    requires b > 0 && forall t :: 0 <= t <= top ==> ChunksAtLeast(s, b, t) <= ChunksAtLeast(p, b, t)
    ensures Layers(s, b, top) <= Layers(p, b, top)
  {
    if top > 0 {
      FewerLayers(s, p, b, top - 1);
    }
  }

  /** Sorted either way, with full chunks, no other order of the texts takes fewer cells. */
  lemma {:induction false} SortedIsOptimal(s: seq<nat>, p: seq<nat>, b: nat, q: nat)
    requires b > 0 && |s| == Mul(q, b) && multiset(s) == multiset(p)
    requires NonIncreasing(s) || NonDecreasing(s)
    ensures Cells(s, b) <= Cells(p, b)
  {
    hide Mul;
    PermutationLength(s, p);
    var top := if MaxOf(s) > MaxOf(p) then MaxOf(s) else MaxOf(p);
    forall t | 0 <= t <= top ensures ChunksAtLeast(s, b, t) <= ChunksAtLeast(p, b, t) {
      if NonIncreasing(s) {
        DescendingChunks(s, b, t);
      } else {
        AscendingChunks(s, b, q, t);
      }
      CountPermutation(AtLeast(t), s, p);
      ChunksCoverTexts(p, b, t);
      MulCancel(b, ChunksAtLeast(s, b, t), ChunksAtLeast(p, b, t));
    }
    FewerLayers(s, p, b, top);
    CellsAreLayers(s, b, q, top);
    CellsAreLayers(p, b, q, top);
    MulMonotone(b, Layers(s, b, top), Layers(p, b, top));
  }

  /** A single chunk costs the same in every order. */
  lemma {:induction false} OneChunk(s: seq<nat>, p: seq<nat>, b: nat)
    requires b > 0 && |s| <= b && multiset(s) == multiset(p)
    ensures Cells(s, b) == Cells(p, b)
  {
    PermutationLength(s, p);
    PermutationMembers(s, p);
    if s != [] {
      MaxOfBounds(p);
      assert MaxOf(p) in s;
      forall i | 0 <= i < |s| ensures s[i] <= MaxOf(p) {
        assert s[i] in p;
      }
      MaxOfIs(s, MaxOf(p));
      assert s[..|s|] == s && p[..|p|] == p && s[|s|..] == [] && p[|p|..] == [];
    }
  }

  // ----- the exact condition -----

  ghost predicate Drawn(s: seq<nat>, can: nat -> bool) {
    forall i :: 0 <= i < |s| ==> can(s[i])
  }

  /** Sorting n lengths in descending order (the library's bucketing) is optimal, whichever of the lengths that can
      occur they are. */
  ghost predicate DescendingOptimal(n: nat, b: nat, can: nat -> bool)
    requires b > 0
  {
    forall s: seq<nat>, p: seq<nat> ::
      |s| == n && Drawn(s, can) && NonIncreasing(s) && multiset(s) == multiset(p) ==> Cells(s, b) <= Cells(p, b)
  }

  /** The same for ascending order. */
  ghost predicate AscendingOptimal(n: nat, b: nat, can: nat -> bool)
    requires b > 0
  {
    forall s: seq<nat>, p: seq<nat> ::
      |s| == n && Drawn(s, can) && NonDecreasing(s) && multiset(s) == multiset(p) ==> Cells(s, b) <= Cells(p, b)
  }

  /** No two different lengths can occur. */
  ghost predicate OneLength(can: nat -> bool) {
    forall v, w :: can(v) && can(w) ==> v == w
  }

  lemma {:induction false} ChunkOfCopies(s: seq<nat>, m: nat, v: nat)
    requires 0 < m <= |s| && forall i :: 0 <= i < m ==> s[i] == v
    ensures MaxOf(s[..m]) == v
  {
    assert s[..m][0] == v;
    MaxOfIs(s[..m], v);
  }

  lemma {:induction false} CellsOfCopies(n: nat, v: nat, b: nat)
    requires b > 0
    ensures Cells(Copies(n, v), b) == Mul(n, v)
  {
    hide Mul, Cells, MaxOf;
    MulZero(v);
    CellsStep(Copies(n, v), b);
    if n > 0 {
      var s := Copies(n, v);
      var m := ChunkSize(s, b);
      ChunkOfCopies(s, m, v);
      assert s[m..] == Copies(n - m, v);
      CellsOfCopies(n - m, v, b);
      MulAdd(v, m, n - m);
    }
  }

  /** One long text at the end pays only for the last chunk, of size r. */
  lemma {:induction false} CellsLongLast(q: nat, r: nat, b: nat, v: nat, w: nat)
    requires 0 < r <= b && v < w
    ensures Cells(Copies(Mul(q, b) + r - 1, v) + [w], b) == Mul(Mul(q, b), v) + Mul(r, w)
  {
    hide Mul, Cells, MaxOf;
    MulZero(b);
    MulZero(v);
    var s := Copies(Mul(q, b) + r - 1, v) + [w];
    CellsStep(s, b);
    CellsStep([], b);
    if q == 0 {
      assert s[..r] == s && s[r..] == [] && s[r - 1] == w;
      MaxOfIs(s, w);
    } else {
      MulSucc(b, q - 1);
      assert s[b..] == Copies(Mul(q - 1, b) + r - 1, v) + [w];
      ChunkOfCopies(s, b, v);
      CellsLongLast(q - 1, r, b, v, w);
      MulAdd(v, Mul(q - 1, b), b);
    }
  }

  /** One long text in front pays for a full chunk. */
  lemma {:induction false} CellsLongFirst(n: nat, b: nat, v: nat, w: nat)
    requires 0 < b < n && v < w
    ensures Cells([w] + Copies(n - 1, v), b) == Mul(b, w) + Mul(n - b, v)
  {
    hide Mul, Cells, MaxOf;
    var s := [w] + Copies(n - 1, v);
    CellsStep(s, b);
    assert s[..b][0] == w;
    MaxOfIs(s[..b], w);
    assert s[b..] == Copies(n - b, v);
    CellsOfCopies(n - b, v, b);
  }

  lemma {:induction false} CellsLongThenShort(q: nat, r: nat, b: nat, v: nat, w: nat)
    requires b > 0
    ensures Cells(Copies(Mul(q, b), w) + Copies(r, v), b) == Mul(Mul(q, b), w) + Mul(r, v)
  {
    hide Mul, Cells, MaxOf;
    MulZero(b);
    MulZero(w);
    var s := Copies(Mul(q, b), w) + Copies(r, v);
    CellsStep(s, b);
    if q == 0 {
      assert s == Copies(r, v);
      CellsOfCopies(r, v, b);
    } else {
      MulSucc(b, q - 1);
      ChunkOfCopies(s, b, w);
      assert s[b..] == Copies(Mul(q - 1, b), w) + Copies(r, v);
      CellsLongThenShort(q - 1, r, b, v, w);
      MulAdd(w, Mul(q - 1, b), b);
    }
  }

  /** With fewer than b short texts in front, every chunk contains a long one. */
  lemma {:induction false} CellsShortThenLong(r: nat, k: nat, b: nat, v: nat, w: nat)
    requires r < b <= r + k && v < w
    ensures Cells(Copies(r, v) + Copies(k, w), b) == Mul(r + k, w)
  {
    hide Mul, Cells, MaxOf;
    var s := Copies(r, v) + Copies(k, w);
    CellsStep(s, b);
    assert s[..b][b - 1] == w;
    MaxOfIs(s[..b], w);
    assert s[b..] == Copies(r + k - b, w);
    CellsOfCopies(r + k - b, w, b);
    MulAdd(w, b, r + k - b);
  }

  lemma LongAndShort(k: nat, v: nat, w: nat)
    requires v < w
    ensures NonIncreasing([w] + Copies(k, v))
    ensures multiset([w] + Copies(k, v)) == multiset(Copies(k, v) + [w])
  {
  }

  /** d more texts of the larger length cost more. */
  lemma {:induction false} LongerCostsMore(d: nat, v: nat, w: nat)
    requires d > 0 && v < w
    ensures Mul(d, v) < Mul(d, w)
  {
    MulAdd(d, v, w - v);
    MulMonotone(d, 1, w - v);
    MulZero(d);
  }

  /** One text of w cells among n - 1 texts of v cells: longest first loses to longest last. */
  lemma {:induction false} DescendingLoses(n: nat, b: nat, v: nat, w: nat)
    requires b > 0 && n % b != 0 && n > b && v < w
    ensures NonIncreasing([w] + Copies(n - 1, v))
    ensures multiset([w] + Copies(n - 1, v)) == multiset(Copies(n - 1, v) + [w])
    ensures Cells([w] + Copies(n - 1, v), b) > Cells(Copies(n - 1, v) + [w], b)
  {
    var q, r := n / b, n % b;
    LongAndShort(n - 1, v, w);
    Quotient(n, b);
    hide Mul, Cells;
    CellsLongFirst(n, b, v, w);
    CellsLongLast(q, r, b, v, w);
    MulAdd(w, r, b - r);
    MulAdd(v, n - b, b - r);
    LongerCostsMore(b - r, v, w);
  }

  /** n mod b texts of v cells, the others of w: shortest first loses to longest first. */
  lemma {:induction false} AscendingLoses(n: nat, b: nat, v: nat, w: nat)
    requires b > 0 && n % b != 0 && n > b && v < w
    ensures Cells(Copies(n % b, v) + Copies(n - n % b, w), b) > Cells(Copies(n - n % b, w) + Copies(n % b, v), b)
  {
    var k, r := Mul(n / b, b), n % b;
    Quotient(n, b);
    hide Mul, Cells;
    CellsShortThenLong(r, k, b, v, w);
    CellsLongThenShort(n / b, r, b, v, w);
    MulAdd(w, r, k);
    LongerCostsMore(r, v, w);
  }

  lemma {:induction false} SortedNeverLoses(s: seq<nat>, p: seq<nat>, b: nat)
    requires b > 0 && (|s| % b == 0 || |s| <= b) && multiset(s) == multiset(p)
    requires NonIncreasing(s) || NonDecreasing(s)
    ensures Cells(s, b) <= Cells(p, b)
  {
    if |s| <= b {
      OneChunk(s, p, b);
    } else {
      Quotient(|s|, b);
      SortedIsOptimal(s, p, b, |s| / b);
    }
  }

  /** Where only one length occurs there is only one order. */
  lemma {:induction false} SameLengths(s: seq<nat>, p: seq<nat>, can: nat -> bool)
    requires OneLength(can) && Drawn(s, can) && multiset(s) == multiset(p)
    ensures s == p
  {
    PermutationLength(s, p);
    PermutationMembers(s, p);
    forall i | 0 <= i < |s| ensures s[i] == p[i] {
      assert p[i] in s;
    }
  }

  /** Bucketing longest first minimises padding for every corpus of n texts exactly when the batch size divides n,
      everything fits one batch, or all texts are of one length. */
  lemma {:induction false} DescendingOptimalIff(n: nat, b: nat, can: nat -> bool)
    requires b > 0
    ensures DescendingOptimal(n, b, can) <==> n % b == 0 || n <= b || OneLength(can)
  {
    hide Cells;
    if n % b == 0 || n <= b || OneLength(can) {
      forall s: seq<nat>, p: seq<nat> | |s| == n && Drawn(s, can) && NonIncreasing(s) && multiset(s) == multiset(p)
        ensures Cells(s, b) <= Cells(p, b)
      {
        if OneLength(can) {
          SameLengths(s, p, can);
        } else {
          SortedNeverLoses(s, p, b);
        }
      }
    } else {
      var v, w := TwoLengths(can);
      var short := Copies(n - 1, v);
      DescendingLoses(n, b, v, w);
      assert |[w] + short| == n && Drawn([w] + short, can);
    }
  }

  lemma {:induction false} TwoLengths(can: nat -> bool) returns (v: nat, w: nat)
    requires !OneLength(can)
    ensures can(v) && can(w) && v < w
  {
    v, w :| can(v) && can(w) && v != w;
    if v > w {
      v, w := w, v;
    }
  }

  /** The same condition, exactly, for shortest-first order. */
  lemma {:induction false} AscendingOptimalIff(n: nat, b: nat, can: nat -> bool)
    requires b > 0
    ensures AscendingOptimal(n, b, can) <==> n % b == 0 || n <= b || OneLength(can)
  {
    hide Cells;
    if n % b == 0 || n <= b || OneLength(can) {
      forall s: seq<nat>, p: seq<nat> | |s| == n && Drawn(s, can) && NonDecreasing(s) && multiset(s) == multiset(p)
        ensures Cells(s, b) <= Cells(p, b)
      {
        if OneLength(can) {
          SameLengths(s, p, can);
        } else {
          SortedNeverLoses(s, p, b);
        }
      }
    } else {
      var v, w := TwoLengths(can);
      var short, long := Copies(n % b, v), Copies(n - n % b, w);
      AscendingLoses(n, b, v, w);
      assert multiset(short + long) == multiset(long + short);
      assert |short + long| == n && Drawn(short + long, can) && NonDecreasing(short + long);
    }
  }

  // ----- how much padding is left -----

  lemma {:induction false} TotalBounds(s: seq<nat>, lo: nat, hi: nat)
    requires forall i :: 0 <= i < |s| ==> lo <= s[i] <= hi
    ensures Mul(|s|, lo) <= Total(s) <= Mul(|s|, hi)
  {
    hide Mul;
    MulZero(lo);
    MulZero(hi);
    if s != [] {
      TotalBounds(s[..|s| - 1], lo, hi);
      MulSucc(lo, |s| - 1);
      MulSucc(hi, |s| - 1);
    }
  }

  lemma {:induction false} TotalConcat(a: seq<nat>, b: seq<nat>)
    ensures Total(a + b) == Total(a) + Total(b)
  {
    if b == [] {
      assert a + b == a;
    } else {
      assert (a + b)[..|a + b| - 1] == a + b[..|b| - 1];
      TotalConcat(a, b[..|b| - 1]);
    }
  }

  /** The padding of one chunk of at most b texts. */
  lemma {:induction false} ChunkWaste(m: nat, b: nat, hi: nat, lo: nat)
    requires m <= b && lo <= hi
    ensures Mul(m, hi) <= Mul(m, lo) + Mul(b, hi - lo)
  {
    hide Mul;
    MulAdd(m, lo, hi - lo);
    MulMonotone(hi - lo, m, b);
  }

  function Gap(x: nat, y: nat): nat { if x > y then x - y else y - x }

  /** How far the lengths move up and down along the list. */
  function Variation(s: seq<nat>): nat {
    if |s| < 2 then 0 else Variation(s[..|s| - 1]) + Gap(s[|s| - 2], s[|s| - 1])
  }

  lemma {:induction false} WithinVariation(s: seq<nat>, i: nat, j: nat)
    requires i <= j < |s|
    ensures Gap(s[i], s[j]) <= Variation(s)
  {
    var n := |s| - 1;
    if j < n {
      WithinVariation(s[..n], i, j);
    } else if i < n {
      WithinVariation(s[..n], i, n - 1);
    }
  }

  lemma {:induction false} VariationSplit(s: seq<nat>, m: nat)
    requires 0 < m <= |s|
    ensures Variation(s[..m]) + Variation(s[m..]) <= Variation(s)
  {
    var n := |s| - 1;
    if m <= n {
      VariationSplit(s[..n], m);
      assert s[..n][..m] == s[..m] && s[..n][m..] == s[m..][..n - m];
    } else {
      assert s[..m] == s;
    }
  }

  lemma {:induction false} VariationOfSorted(s: seq<nat>)
    requires s != [] && (NonIncreasing(s) || NonDecreasing(s))
    ensures Variation(s) == Gap(s[0], s[|s| - 1])
  {
    if |s| > 1 {
      VariationOfSorted(s[..|s| - 1]);
    }
  }

  lemma {:induction false} FirstChunkWaste(s: seq<nat>, b: nat)
    requires b > 0 && s != []
    ensures var m := ChunkSize(s, b);
      Total(s[..m]) <= Mul(m, MaxOf(s[..m])) <= Total(s[..m]) + Mul(b, Variation(s[..m]))
  {
    hide Mul, Total;
    var m := ChunkSize(s, b);
    var chunk, hi := s[..m], MaxOf(s[..m]);
    MaxOfBounds(chunk);
    var k :| 0 <= k < m && chunk[k] == hi;
    var lo := if hi > Variation(chunk) then hi - Variation(chunk) else 0;
    forall i | 0 <= i < m ensures lo <= chunk[i] <= hi {
      WithinVariation(chunk, if i < k then i else k, if i < k then k else i);
    }
    TotalBounds(chunk, lo, hi);
    ChunkWaste(m, b, hi, lo);
    MulMonotone(b, hi - lo, Variation(chunk));
  }

  /** In any order the padding is at most b times the variation of the lengths. */
  lemma {:induction false} WasteAtMostVariation(s: seq<nat>, b: nat)
    requires b > 0
    ensures Total(s) <= Cells(s, b) <= Total(s) + Mul(b, Variation(s))
    decreases |s|
  {
    CellsStep(s, b);
    if s != [] {
      var m := ChunkSize(s, b);
      var rest := s[m..];
      FirstChunkWaste(s, b);
      TotalSplit(s, m);
      VariationSplit(s, m);
      hide Mul, MaxOf, Cells, Total, Variation;
      WasteAtMostVariation(rest, b);
      WasteAddsUp(b, Variation(s[..m]), Variation(rest), Variation(s));
    }
  }

  /** After sorting, the padding is at most b * (longest - shortest) cells, for every number of texts. */
  lemma {:induction false} SortedWaste(s: seq<nat>, b: nat)
    requires b > 0 && s != [] && (NonIncreasing(s) || NonDecreasing(s))
    ensures Total(s) <= Cells(s, b) <= Total(s) + Mul(b, Gap(s[0], s[|s| - 1]))
  {
    WasteAtMostVariation(s, b);
    VariationOfSorted(s);
  }

  /** One long text and b - 1 short ones. */
  function MixedChunk(b: nat, v: nat, w: nat): (s: seq<nat>)
    requires b > 0
    ensures |s| == b && s[0] == w && forall i :: 0 < i < b ==> s[i] == v
  {
    [w] + Copies(b - 1, v)
  }

  function Interleaved(k: nat, b: nat, v: nat, w: nat): seq<nat>
    requires b > 0
  {
    if k == 0 then [] else MixedChunk(b, v, w) + Interleaved(k - 1, b, v, w)
  }

  lemma {:induction false} CellsOfFullChunk(chunk: seq<nat>, rest: seq<nat>, b: nat)
    requires b > 0 && |chunk| == b
    ensures Cells(chunk + rest, b) == Mul(b, MaxOf(chunk)) + Cells(rest, b)
  {
    hide Mul, Cells, MaxOf;
    CellsStep(chunk + rest, b);
    assert (chunk + rest)[..b] == chunk && (chunk + rest)[b..] == rest;
  }

  lemma {:induction false} MixedChunkWaste(b: nat, v: nat, w: nat)
    requires b > 1 && v < w
    ensures Total(MixedChunk(b, v, w)) + 1 <= Mul(b, MaxOf(MixedChunk(b, v, w)))
  {
    MaxOfIs(MixedChunk(b, v, w), w);
    TotalConcat([w], Copies(b - 1, v));
    TotalBounds(Copies(b - 1, v), v, v);
    assert Total([w]) == w by {
      assert [w][..0] == [];
    }
    hide Mul, Total, MaxOf;
    LongerCostsMore(b - 1, v, w);
    MulSucc(w, b - 1);
  }

  lemma {:induction false} WasteInFront(chunk: seq<nat>, rest: seq<nat>, b: nat, k: nat)
    requires b > 0 && |chunk| == b && Total(chunk) + 1 <= Mul(b, MaxOf(chunk))
    requires Cells(rest, b) >= Total(rest) + k
    ensures Cells(chunk + rest, b) >= Total(chunk + rest) + k + 1
  {
    hide Mul, Cells, Total, MaxOf;
    CellsOfFullChunk(chunk, rest, b);
    TotalConcat(chunk, rest);
  }

  /** Interleaving wastes at least a cell a chunk. */
  lemma {:induction false} InterleavedWaste(k: nat, b: nat, v: nat, w: nat)
    requires b > 1 && v < w
    ensures Cells(Interleaved(k, b, v, w), b) >= Total(Interleaved(k, b, v, w)) + k
  {
    hide Mul, Cells, Total, MaxOf, MixedChunk;
    if k == 0 {
      CellsStep([], b);
      TotalSplit([], 0);
    } else {
      MixedChunkWaste(b, v, w);
      InterleavedWaste(k - 1, b, v, w);
      WasteInFront(MixedChunk(b, v, w), Interleaved(k - 1, b, v, w), b, k - 1);
    }
  }

  /** Chunks of one text are not padded. */
  lemma {:induction false} SinglesWaste(s: seq<nat>)
    ensures Cells(s, 1) == Total(s)
    decreases |s|
  {
    CellsStep(s, 1);
    if s != [] {
      SinglesWaste(s[1..]);
      TotalConcat(s[..1], s[1..]);
      assert s == s[..1] + s[1..] && s[..1][..0] == [];
      MaxOfIs(s[..1], s[0]);
      MulZero(s[0]);
    }
  }

  lemma {:induction false} WasteAddsUp(b: nat, g1: nat, g2: nat, g: nat)
    requires g1 + g2 <= g
    ensures Mul(b, g1) + Mul(b, g2) <= Mul(b, g)
  {
    hide Mul;
    MulAdd(b, g1, g2);
    MulMonotone(b, g1 + g2, g);
  }

  lemma {:induction false} TotalSplit(s: seq<nat>, m: nat)
    requires m <= |s|
    ensures Total(s) == Total(s[..m]) + Total(s[m..])
    ensures m == |s| ==> Total(s[m..]) == 0
  {
    assert s == s[..m] + s[m..];
    TotalConcat(s[..m], s[m..]);
  }
}
