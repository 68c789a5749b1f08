/** Dot product, cosine similarity and Euclidean distance over real vectors of any length. */
module VectorGeometry {
  import opened Arithmetic
  import opened Sequences

  type Vec = seq<real>

  /** `root` is the square root on the non-negative reals. */
  ghost predicate IsSqrt(root: real -> real) {
    forall x :: x >= 0.0 ==> root(x) >= 0.0 && Prod(root(x), root(x)) == x
  }

  function Dot(a: Vec, b: Vec): real
    requires |a| == |b|
  {
    if a == [] then 0.0
    else
      var n := |a| - 1;
      Dot(a[..n], b[..n]) + Prod(a[n], b[n])
  }

  function NormSq(a: Vec): real { Dot(a, a) }

  /** What component i adds to the dot product. */
  function ProductAt(a: Vec, b: Vec): nat -> real {
    (i: nat) => if i < |a| && i < |b| then a[i] * b[i] else 0.0
  }

  /** The dot product is the sum over all components of their products. */
  lemma {:induction false} DotIsSum(a: Vec, b: Vec)
    requires |a| == |b|
    ensures Dot(a, b) == SumBy(UpTo(|a|), ProductAt(a, b))
  {
    if a != [] {
      var n := |a| - 1;
      DotIsSum(a[..n], b[..n]);
      SumUpTo(|a|, ProductAt(a, b), ProductAt(a[..n], b[..n]));
    }
  }

  /** p*a + q*b, component by component. */
  function Combine(a: Vec, b: Vec, p: real, q: real): (c: Vec)
    requires |a| == |b|
    ensures |c| == |a| && forall i :: 0 <= i < |a| ==> c[i] == Prod(p, a[i]) + Prod(q, b[i])
  {
    seq(|a|, i requires 0 <= i < |a| => Prod(p, a[i]) + Prod(q, b[i]))
  }

  lemma {:induction false} NormSqNonNegative(a: Vec)
    ensures NormSq(a) >= 0.0
    ensures NormSq(a) == 0.0 <==> forall i :: 0 <= i < |a| ==> a[i] == 0.0
  {
    if a != [] {
      hide Prod;
      var n := |a| - 1;
      NormSqNonNegative(a[..n]);
      Square(a[n]);
    }
  }

  lemma {:induction false} DotSymmetric(a: Vec, b: Vec)
    requires |a| == |b|
    ensures Dot(a, b) == Dot(b, a)
  {
    if a != [] {
      DotSymmetric(a[..|a| - 1], b[..|b| - 1]);
      ProdCommutes(a[|a| - 1], b[|a| - 1]);
    }
  }

  /** |p a + q b|^2 = p^2 |a|^2 + 2 p q a.b + q^2 |b|^2. */
  lemma {:induction false} CombineNormSq(a: Vec, b: Vec, p: real, q: real)
    requires |a| == |b|
    ensures NormSq(Combine(a, b, p, q)) == Quadratic(p, q, NormSq(a), Dot(a, b), NormSq(b))
  {
    if a != [] {
      hide Prod, Quadratic;
      var n := |a| - 1;
      CombineNormSq(a[..n], b[..n], p, q);
      assert Combine(a, b, p, q)[..n] == Combine(a[..n], b[..n], p, q);
      assert Combine(a, b, p, q)[n] == Prod(p, a[n]) + Prod(q, b[n]);
      QuadraticAdds(p, q, NormSq(a[..n]), Dot(a[..n], b[..n]), NormSq(b[..n]), a[n], b[n]);
    }
  }

  lemma {:induction false} DotWithZero(a: Vec, b: Vec)
    requires |a| == |b| && forall i :: 0 <= i < |b| ==> b[i] == 0.0
    ensures Dot(a, b) == 0.0
  {
    if a != [] {
      DotWithZero(a[..|a| - 1], b[..|b| - 1]);
    }
  }

  /** Cauchy-Schwarz, for every dimension. */
  lemma {:induction false} CauchySchwarz(a: Vec, b: Vec)
    requires |a| == |b|
    ensures Prod(Dot(a, b), Dot(a, b)) <= Prod(NormSq(a), NormSq(b))
  {
    var x, y, z := NormSq(a), Dot(a, b), NormSq(b);
    NormSqNonNegative(b);
    if z == 0.0 {
      DotWithZero(a, b);
    } else {
      CombineNormSq(a, b, z, -y);
      NormSqNonNegative(Combine(a, b, z, -y));
      Discriminant(x, y, z);
    }
  }

  lemma {:induction false} Discriminant(x: real, y: real, z: real)
    requires z > 0.0 && Quadratic(z, -y, x, y, z) >= 0.0
    ensures Prod(y, y) <= Prod(x, z)
  {
    DiscriminantForm(x, y, z);
    PositiveFactor(z, Prod(x, z) - Prod(y, y));
  }

  lemma {:induction false} DiscriminantForm(x: real, y: real, z: real)
    ensures Quadratic(z, -y, x, y, z) == Prod(z, Prod(x, z) - Prod(y, y))
  {
    assert (z * z) * x == z * (x * z);
    assert (z * -y) * y == -(z * (y * y));
    assert (-y * -y) * z == z * (y * y);
  }

  function Norm(a: Vec, root: real -> real): real { root(NormSq(a)) }

  lemma {:induction false} NormIsRoot(a: Vec, root: real -> real)
    requires IsSqrt(root)
    ensures Norm(a, root) >= 0.0 && Prod(Norm(a, root), Norm(a, root)) == NormSq(a)
    ensures Norm(a, root) == 0.0 <==> NormSq(a) == 0.0
  {
    NormSqNonNegative(a);
    Square(Norm(a, root));
  }

  lemma {:induction false} RootMonotone(x: real, y: real, root: real -> real)
    requires IsSqrt(root) && x >= 0.0 && y >= 0.0
    ensures x <= y <==> root(x) <= root(y)
    ensures x == y <==> root(x) == root(y)
  {
    SquaresOrder(root(x), root(y));
  }

  /** |a.b| <= |a| |b|. */
  lemma {:induction false} DotBound(a: Vec, b: Vec, root: real -> real)
    requires |a| == |b| && IsSqrt(root)
    ensures -Prod(Norm(a, root), Norm(b, root)) <= Dot(a, b) <= Prod(Norm(a, root), Norm(b, root))
  {
    NormIsRoot(a, root);
    NormIsRoot(b, root);
    CauchySchwarz(a, b);
    hide IsSqrt, Prod, Dot, NormSq;
    var r, s := Norm(a, root), Norm(b, root);
    ProductOfSquares(r, s);
    ProdNonNegative(r, s);
    SquareBound(Dot(a, b), Prod(r, s));
  }

  // ----- cosine similarity -----

  function Cosine(a: Vec, b: Vec, root: real -> real): real
    requires |a| == |b| && IsSqrt(root)
  {
    if NormSq(a) == 0.0 || NormSq(b) == 0.0 then 0.0
    else
      NormsPositive(a, b, root);
      Dot(a, b) / Prod(Norm(a, root), Norm(b, root))
  }

  /** The cosine times both lengths is the dot product; without a direction it is 0. */
  lemma {:induction false} CosineIs(a: Vec, b: Vec, root: real -> real)
    requires |a| == |b| && IsSqrt(root)
    ensures Dot(a, a) > 0.0 && Dot(b, b) > 0.0 ==>
      Cosine(a, b, root) * (root(Dot(a, a)) * root(Dot(b, b))) == Dot(a, b)
    ensures Dot(a, a) == 0.0 || Dot(b, b) == 0.0 ==> Cosine(a, b, root) == 0.0
  {
    if Dot(a, a) > 0.0 && Dot(b, b) > 0.0 {
      NormsPositive(a, b, root);
      Restores(Dot(a, b), root(Dot(a, a)) * root(Dot(b, b)));
    }
  }

  lemma Restores(x: real, y: real)
    requires y != 0.0
    ensures x / y * y == x
  {
  }

  lemma {:induction false} NormsPositive(a: Vec, b: Vec, root: real -> real)
    requires IsSqrt(root) && NormSq(a) != 0.0 && NormSq(b) != 0.0
    ensures Norm(a, root) > 0.0 && Norm(b, root) > 0.0 && Prod(Norm(a, root), Norm(b, root)) > 0.0
  {
    NormIsRoot(a, root);
    NormIsRoot(b, root);
    ProdPositive(Norm(a, root), Norm(b, root));
  }

  /** Cosine similarity is always in [-1, 1], and symmetric. */
  lemma {:induction false} CosineRange(a: Vec, b: Vec, root: real -> real)
    requires |a| == |b| && IsSqrt(root)
    ensures -1.0 <= Cosine(a, b, root) <= 1.0
    ensures Cosine(a, b, root) == Cosine(b, a, root)
  {
    DotSymmetric(a, b);
    if NormSq(a) != 0.0 && NormSq(b) != 0.0 {
      NormsPositive(a, b, root);
      DotBound(a, b, root);
      ProdCommutes(Norm(a, root), Norm(b, root));
      BoundedQuotient(Dot(a, b), Prod(Norm(a, root), Norm(b, root)));
    }
  }

  lemma BoundedQuotient(x: real, y: real)
    requires y > 0.0 && -y <= x <= y
    ensures -1.0 <= x / y <= 1.0
    ensures x / y == 1.0 <==> x == y
  {
  }

  /** The cosine is 1 exactly when the vectors point the same way: scaled to each other's length they coincide. */
  lemma {:induction false} CosineIsOneIff(a: Vec, b: Vec, root: real -> real)
    requires |a| == |b| && IsSqrt(root) && NormSq(a) != 0.0 && NormSq(b) != 0.0
    ensures Cosine(a, b, root) == 1.0 <==>
      forall i :: 0 <= i < |a| ==> Prod(Norm(b, root), a[i]) == Prod(Norm(a, root), b[i])
  {
    var r, s := Norm(a, root), Norm(b, root);
    NormsPositive(a, b, root);
    DotBound(a, b, root);
    BoundedQuotient(Dot(a, b), Prod(r, s));
    NormIsRoot(a, root);
    NormIsRoot(b, root);
    var diff := Combine(a, b, s, -r);
    CombineNormSq(a, b, s, -r);
    NormSqNonNegative(diff);
    GapOfParallel(r, s, Dot(a, b));
    forall i | 0 <= i < |a| ensures diff[i] == Prod(s, a[i]) - Prod(r, b[i]) {
      NegativeFactor(r, b[i]);
    }
    hide Prod, Dot, Quadratic, IsSqrt;
    assert (forall i :: 0 <= i < |diff| ==> diff[i] == 0.0) <==> Dot(a, b) == Prod(r, s);
  }

  lemma NegativeFactor(r: real, x: real)
    ensures Prod(-r, x) == -Prod(r, x)
  {
  }

  lemma {:induction false} GapOfParallel(r: real, s: real, y: real)
    requires r > 0.0 && s > 0.0
    ensures Quadratic(s, -r, Prod(r, r), y, Prod(s, s)) == 0.0 <==> y == Prod(r, s)
  {
    ProdPositive(r, s);
    GapForm(r, s, y);
    PositiveFactor(Prod(r, s), Prod(r, s) - y);
  }

  lemma {:induction false} GapForm(r: real, s: real, y: real)
    ensures Quadratic(s, -r, Prod(r, r), y, Prod(s, s)) == 2.0 * Prod(Prod(r, s), Prod(r, s) - y)
  {
    hide Prod;
    ProductOfSquares(r, s);
    ProdCommutes(Prod(s, s), Prod(r, r));
    NegativeFactor(r, -r);
    NegativeFactor(r, r);
    NegativeFactor(r, s);
    ProdCommutes(s, -r);
    ProdCommutes(r, -r);
    NegativeFactor(Prod(r, s), y);
    ProdAdd(Prod(r, s), Prod(r, s), -y);
    ProdCommutes(Prod(r, s), -y);
    NegativeFactor(y, Prod(r, s));
    ProdCommutes(y, Prod(r, s));
  }

  // ----- Euclidean distance -----

  function Minus(a: Vec, b: Vec): (c: Vec)
    requires |a| == |b|
    ensures |c| == |a|
  {
    seq(|a|, i requires 0 <= i < |a| => a[i] - b[i])
  }

  function Distance(a: Vec, b: Vec, root: real -> real): real
    requires |a| == |b|
  {
    root(NormSq(Minus(a, b)))
  }

  function SquaredGapAt(a: Vec, b: Vec): nat -> real {
    (i: nat) => if i < |a| && i < |b| then (a[i] - b[i]) * (a[i] - b[i]) else 0.0
  }

  lemma {:induction false} GapsAddUp(a: Vec, b: Vec)
    requires |a| == |b|
    ensures NormSq(Minus(a, b)) == SumBy(UpTo(|a|), SquaredGapAt(a, b))
  {
    if a != [] {
      var n := |a| - 1;
      GapsAddUp(a[..n], b[..n]);
      assert Minus(a, b)[..n] == Minus(a[..n], b[..n]);
      SumUpTo(|a|, SquaredGapAt(a, b), SquaredGapAt(a[..n], b[..n]));
    }
  }

  /** The square of the distance is the sum of the squared differences of the components. */
  lemma {:induction false} DistanceIs(a: Vec, b: Vec, root: real -> real)
    requires |a| == |b| && IsSqrt(root)
    ensures Distance(a, b, root) >= 0.0
    ensures Distance(a, b, root) * Distance(a, b, root) == SumBy(UpTo(|a|), SquaredGapAt(a, b))
  {
    GapsAddUp(a, b);
    NormSqNonNegative(Minus(a, b));
    var x := NormSq(Minus(a, b));
    assert Prod(root(x), root(x)) == x;
  }

  /** Distance is symmetric, non-negative, and zero only between equal vectors. */
  lemma {:induction false} DistanceIsMetric(a: Vec, b: Vec, root: real -> real)
    requires |a| == |b| && IsSqrt(root)
    ensures Distance(a, b, root) == Distance(b, a, root) >= 0.0
    ensures Distance(a, b, root) == 0.0 <==> a == b
  {
    var d := Minus(a, b);
    NormIsRoot(d, root);
    MinusNormSq(a, b);
    NormSqNonNegative(d);
    if forall i :: 0 <= i < |d| ==> d[i] == 0.0 {
      forall i | 0 <= i < |a| ensures a[i] == b[i] {
        assert d[i] == a[i] - b[i];
      }
      assert a == b;
    }
  }

  lemma {:induction false} MinusNormSq(a: Vec, b: Vec)
    requires |a| == |b|
    ensures NormSq(Minus(a, b)) == NormSq(Minus(b, a))
  {
    if a != [] {
      var n := |a| - 1;
      MinusNormSq(a[..n], b[..n]);
      assert Minus(a, b)[..n] == Minus(a[..n], b[..n]) && Minus(b, a)[..n] == Minus(b[..n], a[..n]);
      var x := a[n] - b[n];
      assert x * x == -x * -x;
      assert Prod(a[n] - b[n], a[n] - b[n]) == Prod(b[n] - a[n], b[n] - a[n]);
    }
  }

  lemma UnitCoefficients(x: real, y: real, z: real)
    ensures Prod(1.0, x) == x && Prod(-1.0, x) == -x
    ensures Quadratic(1.0, 1.0, x, y, z) == x + 2.0 * y + z
    ensures Quadratic(1.0, -1.0, x, y, z) == x - 2.0 * y + z
  {
  }

  lemma {:induction false} SumNormSq(a: Vec, b: Vec)
    requires |a| == |b|
    ensures forall i :: 0 <= i < |a| ==> Combine(a, b, 1.0, 1.0)[i] == a[i] + b[i]
    ensures NormSq(Combine(a, b, 1.0, 1.0)) == NormSq(a) + 2.0 * Dot(a, b) + NormSq(b)
  {
    CombineNormSq(a, b, 1.0, 1.0);
    UnitCoefficients(NormSq(a), Dot(a, b), NormSq(b));
    hide Prod, Quadratic;
    forall i | 0 <= i < |a| ensures Combine(a, b, 1.0, 1.0)[i] == a[i] + b[i] {
      UnitCoefficients(a[i], 0.0, 0.0);
      UnitCoefficients(b[i], 0.0, 0.0);
    }
  }

  lemma {:induction false} DifferenceNormSq(a: Vec, b: Vec)
    requires |a| == |b|
    ensures NormSq(Minus(a, b)) == NormSq(a) - 2.0 * Dot(a, b) + NormSq(b)
  {
    CombineNormSq(a, b, 1.0, -1.0);
    UnitCoefficients(NormSq(a), Dot(a, b), NormSq(b));
    hide Prod, Quadratic;
    forall i | 0 <= i < |a| ensures Combine(a, b, 1.0, -1.0)[i] == Minus(a, b)[i] {
      UnitCoefficients(a[i], 0.0, 0.0);
      UnitCoefficients(b[i], 0.0, 0.0);
    }
    assert Minus(a, b) == Combine(a, b, 1.0, -1.0);
  }

  lemma {:induction false} TriangleInequality(a: Vec, b: Vec, c: Vec, root: real -> real)
    requires |a| == |b| == |c| && IsSqrt(root)
    ensures Distance(a, c, root) <= Distance(a, b, root) + Distance(b, c, root)
  {
    var u, v := Minus(a, b), Minus(b, c);
    SumNormSq(u, v);
    assert Minus(a, c) == Combine(u, v, 1.0, 1.0);
    DotBound(u, v, root);
    NormIsRoot(u, root);
    NormIsRoot(v, root);
    NormIsRoot(Minus(a, c), root);
    hide IsSqrt, Dot, Prod, NormSq;
    var r, s, t := Norm(u, root), Norm(v, root), Norm(Minus(a, c), root);
    SquareOfSum(r, s);
    SquareBound(t, r + s);
  }

  /** Between unit vectors the squared distance is 2 - 2 a.b. */
  lemma {:induction false} UnitDistance(a: Vec, b: Vec)
    requires |a| == |b| && NormSq(a) == 1.0 && NormSq(b) == 1.0
    ensures NormSq(Minus(a, b)) == 2.0 - 2.0 * Dot(a, b)
  {
    DifferenceNormSq(a, b);
  }

  /** For unit vectors ranking by dot product, by cosine and by ascending distance is the same ranking. */
  lemma {:induction false} UnitRankingsAgree(q: Vec, d: Vec, e: Vec, root: real -> real)
    requires |q| == |d| == |e| && IsSqrt(root)
    requires NormSq(q) == 1.0 && NormSq(d) == 1.0 && NormSq(e) == 1.0
    ensures Dot(q, d) >= Dot(q, e) <==> Cosine(q, d, root) >= Cosine(q, e, root)
    ensures Dot(q, d) >= Dot(q, e) <==> Distance(q, d, root) <= Distance(q, e, root)
  {
    UnitDistance(q, d);
    UnitDistance(q, e);
    NormSqNonNegative(Minus(q, d));
    NormSqNonNegative(Minus(q, e));
    RootMonotone(NormSq(Minus(q, d)), NormSq(Minus(q, e)), root);
    RootOfOne(root);
  }

  lemma {:induction false} RootOfOne(root: real -> real)
    requires IsSqrt(root)
    ensures root(1.0) == 1.0
  {
    SquaresOrder(root(1.0), 1.0);
  }

  // ----- the C functions -----

  method CosineSimilarity(a: array?<real>, b: array?<real>, dim: int, root: real -> real) returns (r: real)
    requires IsSqrt(root)
    requires a != null ==> dim <= a.Length
    requires b != null ==> dim <= b.Length
    ensures r == if a == null || b == null || dim <= 0 then 0.0 else Cosine(a[..dim], b[..dim], root)
    ensures -1.0 <= r <= 1.0
  {
    if a == null || b == null || dim <= 0 {
      return 0.0;
    }
    var dot, normA, normB := 0.0, 0.0, 0.0;
    for i := 0 to dim
      invariant dot == Dot(a[..i], b[..i])
      invariant normA == NormSq(a[..i]) && normB == NormSq(b[..i])
    {
      assert a[..i + 1][..i] == a[..i] && b[..i + 1][..i] == b[..i];
      dot, normA, normB := dot + Prod(a[i], b[i]), normA + Prod(a[i], a[i]), normB + Prod(b[i], b[i]);
    }
    CosineRange(a[..dim], b[..dim], root);
    if normA == 0.0 || normB == 0.0 {
      return 0.0;
    }
    NormsPositive(a[..dim], b[..dim], root);
    r := dot / Prod(root(normA), root(normB));
  }

  method DotProduct(a: array?<real>, b: array?<real>, dim: int) returns (r: real)
    requires a != null ==> dim <= a.Length
    requires b != null ==> dim <= b.Length
    ensures r == if a == null || b == null || dim <= 0 then 0.0 else Dot(a[..dim], b[..dim])
  {
    if a == null || b == null || dim <= 0 {
      return 0.0;
    }
    r := 0.0;
    for i := 0 to dim
      invariant r == Dot(a[..i], b[..i])
    {
      assert a[..i + 1][..i] == a[..i] && b[..i + 1][..i] == b[..i];
      r := r + Prod(a[i], b[i]);
    }
  }

  method EuclideanDistance(a: array?<real>, b: array?<real>, dim: int, root: real -> real) returns (r: real)
    requires IsSqrt(root)
    requires a != null ==> dim <= a.Length
    requires b != null ==> dim <= b.Length
    ensures r == if a == null || b == null || dim <= 0 then 0.0 else Distance(a[..dim], b[..dim], root)
  {
    if a == null || b == null || dim <= 0 {
      return 0.0;
    }
    var sum := 0.0;
    for i := 0 to dim
      invariant sum == NormSq(Minus(a[..i], b[..i]))
    {
      var diff := a[i] - b[i];
      assert Minus(a[..i + 1], b[..i + 1])[..i] == Minus(a[..i], b[..i]);
      sum := sum + Prod(diff, diff);
    }
    r := root(sum);
  }
}
