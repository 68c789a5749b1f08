/** Min-max quantisation of embeddings to int8 and back. */
module Int8 {
  import opened Status

  function MinOf(s: seq<real>): (m: real)
    requires s != []
    ensures m in s && forall i :: 0 <= i < |s| ==> m <= s[i]
  {
    if |s| == 1 then s[0]
    else
      var front := MinOf(s[..|s| - 1]);
      if s[|s| - 1] < front then s[|s| - 1] else front
  }

  function MaxOf(s: seq<real>): (m: real)
    requires s != []
    ensures m in s && forall i :: 0 <= i < |s| ==> s[i] <= m
  {
    if |s| == 1 then s[0]
    else
      var front := MaxOf(s[..|s| - 1]);
      if s[|s| - 1] > front then s[|s| - 1] else front
  }

  /** Conversion to an integer type: the fraction is dropped, towards zero. */
  function Truncate(x: real): (n: int)
    ensures x >= 0.0 ==> n >= 0 && n as real <= x < n as real + 1.0
    ensures x <= 0.0 ==> n <= 0 && n as real - 1.0 < x <= n as real
  {
    if x >= 0.0 then x.Floor else -((-x).Floor)
  }

  lemma TruncateInteger(n: int)
    ensures Truncate(n as real) == n
  {
  }

  lemma TruncateMonotone(x: real, y: real)
    requires x <= y
    ensures Truncate(x) <= Truncate(y)
  {
  }

  /** The position of x on the code scale: -128 for the minimum, 127 for the maximum. */
  function Scaled(x: real, lo: real, hi: real): real
    requires lo < hi
  {
    (x - lo) / (hi - lo) * 255.0 - 128.0
  }

  function Code(x: real, lo: real, hi: real): int
    requires lo < hi
  {
    Truncate(Scaled(x, lo, hi))
  }

  /** One row. NumPy refuses the minimum of an empty row, hence the requirement. */
  function Quantize(row: seq<real>): (q: seq<int>)
    requires row != []
    ensures |q| == |row|
  {
    var lo, hi := MinOf(row), MaxOf(row);
    if hi - lo == 0.0 then seq(|row|, _ => 0)
    else seq(|row|, i requires 0 <= i < |row| => Code(row[i], lo, hi))
  }

  /** Back from the code scale: 0 to 255 over the width, from the minimum up. */
  function Unscale(v: real, lo: real, hi: real): real {
    (v + 128.0) / 255.0 * (hi - lo) + lo
  }

  function DequantizeCode(q: int, lo: real, hi: real): real {
    Unscale(q as real, lo, hi)
  }

  function Dequantize(q: seq<int>, lo: real, hi: real): (r: seq<real>)
    ensures |r| == |q| && forall i :: 0 <= i < |q| ==> r[i] == DequantizeCode(q[i], lo, hi)
  {
    seq(|q|, i requires 0 <= i < |q| => DequantizeCode(q[i], lo, hi))
  }

  /** Quantises every row; an empty row makes the whole call fail. */
  method QuantizeToInt8(embeddings: seq<seq<real>>) returns (r: Option<seq<seq<int>>>)
    ensures r.Some? <==> forall i :: 0 <= i < |embeddings| ==> embeddings[i] != []
    ensures r.Some? ==> |r.value| == |embeddings|
    ensures r.Some? ==> forall i :: 0 <= i < |embeddings| ==> r.value[i] == Quantize(embeddings[i])
  {
    var quantized: seq<seq<int>> := [];
    for i := 0 to |embeddings|
      invariant |quantized| == i
      invariant forall j :: 0 <= j < i ==> embeddings[j] != [] && quantized[j] == Quantize(embeddings[j])
    {
      if embeddings[i] == [] {
        return None;
      }
      quantized := quantized + [Quantize(embeddings[i])];
    }
    return Some(quantized);
  }

  // ----- scaling arithmetic -----

  lemma FractionBounds(d: real, w: real)
    requires w > 0.0 && 0.0 <= d <= w
    ensures 0.0 <= d / w <= 1.0
    ensures d == 0.0 ==> d / w == 0.0
    ensures d == w ==> d / w == 1.0
  {
  }

  lemma {:induction false} ScaledBounds(x: real, lo: real, hi: real)
    requires lo < hi && lo <= x <= hi
    ensures -128.0 <= Scaled(x, lo, hi) <= 127.0
    ensures x == lo ==> Scaled(x, lo, hi) == -128.0
    ensures x == hi ==> Scaled(x, lo, hi) == 127.0
  {
    FractionBounds(x - lo, hi - lo);
  }

  lemma QuotientMonotone(x: real, y: real, w: real)
    requires w > 0.0 && x <= y
    ensures x / w <= y / w
  {
  }

  lemma {:induction false} ScaledMonotone(x: real, y: real, lo: real, hi: real)
    requires lo < hi && x <= y
    ensures Scaled(x, lo, hi) <= Scaled(y, lo, hi)
  {
    QuotientMonotone(x - lo, y - lo, hi - lo);
  }

  /** Unscaling undoes scaling. */
  lemma {:induction false} UnscaleScaled(x: real, lo: real, hi: real)
    requires lo < hi
    ensures Unscale(Scaled(x, lo, hi), lo, hi) == x
  {
    var w := hi - lo;
    assert (x - lo) / w * w == x - lo;
    assert (Scaled(x, lo, hi) + 128.0) / 255.0 == (x - lo) / w;
  }

  lemma {:induction false} ScaledOfDequantized(q: int, lo: real, hi: real)
    requires lo < hi
    ensures Scaled(DequantizeCode(q, lo, hi), lo, hi) == q as real
  {
    var w, u := hi - lo, (q as real + 128.0) / 255.0;
    assert DequantizeCode(q, lo, hi) - lo == u * w;
    CancelWidth(u, w);
    assert u * 255.0 == q as real + 128.0;
  }

  lemma CancelWidth(u: real, w: real)
    requires w > 0.0
    ensures (u * w) / w == u
  {
  }

  /** Less than one code apart is less than 1/255 of the width apart. */
  lemma {:induction false} UnscaleGap(u: real, v: real, lo: real, hi: real)
    requires lo < hi && u < v + 1.0
    ensures Unscale(u, lo, hi) < Unscale(v, lo, hi) + (hi - lo) / 255.0
  {
    var gap, w := v + 1.0 - u, hi - lo;
    assert Unscale(v, lo, hi) + w / 255.0 - Unscale(u, lo, hi) == gap / 255.0 * w;
  }

  // ----- the properties -----

  lemma CodeAt(row: seq<real>, i: nat)
    requires row != [] && i < |row| && MinOf(row) < MaxOf(row)
    ensures Quantize(row)[i] == Code(row[i], MinOf(row), MaxOf(row))
  {
  }

  /** q is u / w with the fraction dropped towards zero. */
  predicate IsTruncatedQuotient(q: real, u: real, w: real) {
    && (u >= 0.0 ==> q * w <= u < (q + 1.0) * w && q >= 0.0)
    && (u <= 0.0 ==> (q - 1.0) * w < u <= q * w && q <= 0.0)
  }

  /** A code, said with products only: with w the width of the row and u = (x - lo) * 255 - 128 * w, which is w times
      the place on the scale, it is u / w with the fraction dropped towards zero. A constant row has only codes 0. */
  lemma {:induction false} CodeIs(row: seq<real>, i: nat)
    requires row != [] && i < |row|
    ensures var w, q := MaxOf(row) - MinOf(row), Quantize(row)[i];
      if w > 0.0 then IsTruncatedQuotient(q as real, (row[i] - MinOf(row)) * 255.0 - 128.0 * w, w) else q == 0
  {
    hide IsTruncatedQuotient, Code, Quantize;
    var w := MaxOf(row) - MinOf(row);
    if w > 0.0 {
      CodeAt(row, i);
      CodeOfValue(row[i], MinOf(row), MaxOf(row), (row[i] - MinOf(row)) * 255.0 - 128.0 * w, w);
    } else {
      ConstantRow(row, i);
    }
  }

  lemma ConstantRow(row: seq<real>, i: nat)
    requires row != [] && i < |row| && MaxOf(row) - MinOf(row) <= 0.0
    ensures Quantize(row)[i] == 0
  {
    assert MinOf(row) <= row[i] <= MaxOf(row);
  }

  lemma {:induction false} CodeOfValue(x: real, lo: real, hi: real, u: real, w: real)
    requires lo < hi && w == hi - lo && u == (x - lo) * 255.0 - 128.0 * w
    ensures IsTruncatedQuotient(Code(x, lo, hi) as real, u, w)
  {
    ScaledTimes(x, lo, hi);
    hide IsTruncatedQuotient, Scaled;
    TruncatedTimes(Scaled(x, lo, hi), w, u);
  }

  lemma {:induction false} ScaledTimes(x: real, lo: real, hi: real)
    requires lo < hi
    ensures Scaled(x, lo, hi) * (hi - lo) == (x - lo) * 255.0 - 128.0 * (hi - lo)
  {
    var w := hi - lo;
    assert (x - lo) / w * w == x - lo;
    assert Scaled(x, lo, hi) * w == (x - lo) / w * w * 255.0 - 128.0 * w;
  }

  lemma {:induction false} TruncatedTimes(v: real, w: real, u: real)
    requires w > 0.0 && v * w == u
    ensures IsTruncatedQuotient(Truncate(v) as real, u, w)
  {
    var q := Truncate(v) as real;
    assert u >= 0.0 <==> v >= 0.0;
    assert u <= 0.0 <==> v <= 0.0;
    if v >= 0.0 {
      ProductsOrder(q, v, w);
      StrictProductsOrder(v, q + 1.0, w);
    }
    if v <= 0.0 {
      ProductsOrder(v, q, w);
      StrictProductsOrder(q - 1.0, v, w);
    }
  }

  lemma ProductsOrder(x: real, y: real, w: real)
    requires w > 0.0 && x <= y
    ensures x * w <= y * w
  {
  }

  lemma StrictProductsOrder(x: real, y: real, w: real)
    requires w > 0.0 && x < y
    ensures x * w < y * w
  {
  }

  /** A dequantised value stands code + 128 of 255 parts of the width above the minimum. */
  lemma {:induction false} DequantizedIs(q: int, lo: real, hi: real)
    ensures (DequantizeCode(q, lo, hi) - lo) * 255.0 == (q + 128) as real * (hi - lo)
  {
    var u := (q as real + 128.0) / 255.0;
    assert DequantizeCode(q, lo, hi) - lo == u * (hi - lo);
    assert u * 255.0 == (q + 128) as real;
    assert u * (hi - lo) * 255.0 == u * 255.0 * (hi - lo);
  }

  /** Codes fit in a signed byte, and a larger value never gets a smaller code. */
  lemma {:induction false} CodesFitAndKeepOrder(row: seq<real>, i: nat, j: nat)
    requires row != [] && i < |row| && j < |row|
    ensures -128 <= Quantize(row)[i] <= 127
    ensures row[i] <= row[j] ==> Quantize(row)[i] <= Quantize(row)[j]
  {
    var lo, hi := MinOf(row), MaxOf(row);
    if lo < hi {
      ScaledBounds(row[i], lo, hi);
      if row[i] <= row[j] {
        ScaledMonotone(row[i], row[j], lo, hi);
        TruncateMonotone(Scaled(row[i], lo, hi), Scaled(row[j], lo, hi));
      }
    }
  }

  /** Dequantising with the row's own minimum and maximum is off by less than one step of 1/255 of the width. */
  lemma {:induction false} RoundTripError(row: seq<real>, i: nat)
    requires row != [] && i < |row|
    ensures var lo, hi := MinOf(row), MaxOf(row);
      var back := DequantizeCode(Quantize(row)[i], lo, hi);
      && (lo < hi ==> -((hi - lo) / 255.0) < back - row[i] < (hi - lo) / 255.0)
      && (row[i] == lo || row[i] == hi ==> back == row[i])
  {
    var lo, hi := MinOf(row), MaxOf(row);
    if lo < hi {
      CodeAt(row, i);
      CodeError(row[i], lo, hi);
    } else {
      assert lo <= row[i] <= hi;
    }
  }

  lemma {:induction false} CodeError(x: real, lo: real, hi: real)
    requires lo < hi && lo <= x <= hi
    ensures var back := DequantizeCode(Code(x, lo, hi), lo, hi);
      && -((hi - lo) / 255.0) < back - x < (hi - lo) / 255.0
      && (x == lo || x == hi ==> back == x)
  {
    var v := Scaled(x, lo, hi);
    var q := Truncate(v) as real;
    UnscaleScaled(x, lo, hi);
    ScaledBounds(x, lo, hi);
    TruncateInteger(-128);
    TruncateInteger(127);
    hide Unscale, Scaled;
    UnscaleGap(v, q, lo, hi);
    UnscaleGap(q, v, lo, hi);
  }

  /** The dequantised row has the same minimum and maximum as the original. */
  lemma {:induction false} DequantizedExtremes(row: seq<real>)
    requires row != []
    ensures var lo, hi := MinOf(row), MaxOf(row);
      var back := Dequantize(Quantize(row), lo, hi);
      MinOf(back) == lo && MaxOf(back) == hi
  {
    var lo, hi := MinOf(row), MaxOf(row);
    var back := Dequantize(Quantize(row), lo, hi);
    forall i | 0 <= i < |row| ensures lo <= back[i] <= hi {
      RoundTripError(row, i);
      if lo < hi {
        CodesFitAndKeepOrder(row, i, i);
        DequantizedInRange(Quantize(row)[i], lo, hi);
      }
    }
    var i :| 0 <= i < |row| && row[i] == lo;
    RoundTripError(row, i);
    assert back[i] == lo;
    var j :| 0 <= j < |row| && row[j] == hi;
    RoundTripError(row, j);
    assert back[j] == hi;
  }

  lemma {:induction false} DequantizedInRange(q: int, lo: real, hi: real)
    requires lo < hi && -128 <= q <= 127
    ensures lo <= DequantizeCode(q, lo, hi) <= hi
  {
    var u, w := (q as real + 128.0) / 255.0, hi - lo;
    assert 0.0 <= u <= 1.0;
    assert 0.0 <= u * w <= w;
  }

  /** Quantise, dequantise, quantise again: nothing changes any more. */
  lemma {:induction false} QuantizeIsProjection(row: seq<real>)
    requires row != []
    ensures Quantize(Dequantize(Quantize(row), MinOf(row), MaxOf(row))) == Quantize(row)
  {
    var lo, hi := MinOf(row), MaxOf(row);
    var q := Quantize(row);
    var back := Dequantize(q, lo, hi);
    DequantizedExtremes(row);
    forall i | 0 <= i < |row| ensures Quantize(back)[i] == q[i] {
      if lo < hi {
        CodeAt(back, i);
        ScaledOfDequantized(q[i], lo, hi);
        TruncateInteger(q[i]);
      }
    }
  }
}
