/** Products as an opaque-able function, so that proofs can use these laws instead of nonlinear search. */
module Arithmetic {

  function Mul(a: nat, b: nat): nat { a * b }

  lemma {:induction false} MulSucc(a: nat, b: nat)
    ensures Mul(a, b + 1) == Mul(a, b) + a
    ensures Mul(b + 1, a) == Mul(b, a) + a
  {
    assert a * (b + 1) == a * b + a;
  }

  lemma MulZero(a: nat)
    ensures Mul(a, 0) == Mul(0, a) == 0
    ensures Mul(a, 1) == Mul(1, a) == a
  {
  }

  lemma {:induction false} MulAdd(a: nat, x: nat, y: nat)
    ensures Mul(a, x + y) == Mul(a, x) + Mul(a, y)
    ensures Mul(x + y, a) == Mul(x, a) + Mul(y, a)
  {
    assert a * (x + y) == a * x + a * y;
  }

  lemma {:induction false} MulMonotone(a: nat, x: nat, y: nat)
    requires x <= y
    ensures Mul(a, x) <= Mul(a, y) && Mul(x, a) <= Mul(y, a)
  {
    MulAdd(a, x, y - x);
  }

  lemma {:induction false} MulCancel(a: nat, x: nat, y: nat)
    requires Mul(a, x) < Mul(a, y) + a
    ensures x <= y
  {
    MulSucc(a, y);
    if x > y {
      MulMonotone(a, y + 1, x);
    }
  }

  lemma MulCommutes(a: nat, b: nat)
    ensures Mul(a, b) == Mul(b, a)
  {
  }

  lemma Quotient(n: nat, b: nat)
    requires b > 0
    ensures n == Mul(n / b, b) + n % b
  {
  }

  /** Product of reals. */
  function Prod(x: real, y: real): real { x * y }

  lemma ProdPositive(x: real, y: real)
    requires x > 0.0 && y > 0.0
    ensures Prod(x, y) > 0.0
  {
  }

  lemma {:induction false} Square(x: real)
    ensures Prod(x, x) >= 0.0
    ensures Prod(x, x) == 0.0 <==> x == 0.0
  {
    if x > 0.0 {
      ProdPositive(x, x);
    } else if x < 0.0 {
      ProdPositive(-x, -x);
      assert x * x == -x * -x;
    }
  }

  lemma DifferenceOfSquares(x: real, y: real)
    ensures Prod(x, x) - Prod(y, y) == Prod(x - y, x + y)
  {
  }

  /** On non-negative numbers squaring is strictly increasing. */
  lemma {:induction false} SquaresOrder(x: real, y: real)
    requires x >= 0.0 && y >= 0.0
    ensures Prod(x, x) <= Prod(y, y) <==> x <= y
    ensures Prod(x, x) == Prod(y, y) <==> x == y
  {
    DifferenceOfSquares(x, y);
    DifferenceOfSquares(y, x);
    if x < y {
      ProdPositive(y - x, y + x);
    } else if y < x {
      ProdPositive(x - y, x + y);
    }
  }

  lemma {:induction false} SquareBound(x: real, y: real)
    requires y >= 0.0 && Prod(x, x) <= Prod(y, y)
    ensures -y <= x <= y
  {
    if x >= 0.0 {
      SquaresOrder(x, y);
    } else {
      assert x * x == -x * -x;
      SquaresOrder(-x, y);
    }
  }

  lemma {:induction false} ProductOfSquares(r: real, s: real)
    ensures Prod(Prod(r, s), Prod(r, s)) == Prod(Prod(r, r), Prod(s, s))
    ensures Prod(r, s) == Prod(s, r)
  {
    assert (r * s) * (r * s) == r * (s * (r * s));
    assert s * (r * s) == r * (s * s);
    assert r * (r * (s * s)) == (r * r) * (s * s);
  }

  lemma ProdNonNegative(x: real, y: real)
    requires x >= 0.0 && y >= 0.0
    ensures Prod(x, y) >= 0.0
  {
  }

  lemma SquareOfSum(r: real, s: real)
    ensures Prod(r + s, r + s) == Prod(r, r) + 2.0 * Prod(r, s) + Prod(s, s)
  {
  }

  lemma {:induction false} PositiveFactor(z: real, w: real)
    requires z > 0.0
    ensures Prod(z, w) >= 0.0 <==> w >= 0.0
    ensures Prod(z, w) == 0.0 <==> w == 0.0
  {
    if w > 0.0 {
      ProdPositive(z, w);
    } else if w < 0.0 {
      ProdPositive(z, -w);
      assert z * -w == -(z * w);
    }
  }

  /** p^2 x + 2 p q y + q^2 z. */
  function Quadratic(p: real, q: real, x: real, y: real, z: real): real {
    Prod(Prod(p, p), x) + 2.0 * Prod(Prod(p, q), y) + Prod(Prod(q, q), z)
  }

  lemma ProdAdd(a: real, x: real, y: real)
    ensures Prod(a, x + y) == Prod(a, x) + Prod(a, y)
  {
  }

  lemma {:induction false} ProdAssociative(a: real, b: real, c: real)
    ensures Prod(Prod(a, b), c) == Prod(a, Prod(b, c))
  {
    assert (a * b) * c == a * (b * c);
  }

  lemma ProdCommutes(a: real, b: real)
    ensures Prod(a, b) == Prod(b, a)
  {
  }

  lemma {:induction false} ProdSwap(a: real, b: real, c: real, d: real)
    ensures Prod(Prod(a, b), Prod(c, d)) == Prod(Prod(a, c), Prod(b, d))
  {
    hide Prod;
    ProdAssociative(a, b, Prod(c, d));
    ProdAssociative(b, c, d);
    ProdCommutes(b, c);
    ProdAssociative(c, b, d);
    ProdAssociative(a, c, Prod(b, d));
  }

  lemma {:induction false} QuadraticAdds(p: real, q: real, x: real, y: real, z: real, u: real, v: real)
    ensures Quadratic(p, q, x + Prod(u, u), y + Prod(u, v), z + Prod(v, v))
         == Quadratic(p, q, x, y, z) + Prod(Prod(p, u) + Prod(q, v), Prod(p, u) + Prod(q, v))
  {
    hide Prod;
    ProdAdd(Prod(p, p), x, Prod(u, u));
    ProdAdd(Prod(p, q), y, Prod(u, v));
    ProdAdd(Prod(q, q), z, Prod(v, v));
    SquareOfSum(Prod(p, u), Prod(q, v));
    ProdSwap(p, p, u, u);
    ProdSwap(p, q, u, v);
    ProdSwap(q, q, v, v);
  }
}
