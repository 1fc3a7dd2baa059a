/** The JavaScript arithmetic helpers the calculator relies on, over exact
    reals: `Math.round`, the cent rounding `round2`, `Math.pow` with a whole
    exponent, and the left fold `sum`. */
module Numbers {

  function Min(a: int, b: int): int { if a <= b then a else b }
  function Max(a: int, b: int): int { if a >= b then a else b }
  function MaxReal(a: real, b: real): real { if a >= b then a else b }

  /** `Math.round`: the integer nearest to `x`, a half rounded up (towards
      plus infinity). The two bounds determine the result uniquely. */
  function Round(x: real): (n: int)
    ensures x - 0.5 < n as real <= x + 0.5
  {
    (x + 0.5).Floor
  }

  /** A value that is a whole number of cents. */
  predicate IsWholeCents(y: real) {
    (y * 100.0).Floor as real == y * 100.0
  }

  /** `round2`: rounds to the nearest cent, a half cent up. */
  function Round2(x: real): (y: real)
    ensures x - 0.005 < y <= x + 0.005
    ensures IsWholeCents(y)
  {
    var n := Round(x * 100.0);
    assert n as real / 100.0 * 100.0 == n as real;
    n as real / 100.0
  }

  /** An amount that is already a whole number of cents rounds to itself. */
  lemma Round2Exact(y: real)
    requires IsWholeCents(y)
    ensures Round2(y) == y
  {
    var k := (y * 100.0).Floor;
    assert Round(y * 100.0) == k;
  }

  /** Rounding twice is rounding once. */
  lemma Round2Idempotent(x: real)
    ensures Round2(Round2(x)) == Round2(x)
  {
    Round2Exact(Round2(x));
  }

  /** A non-negative amount never rounds to a negative one. */
  lemma Round2NonNegative(x: real)
    requires x >= 0.0
    ensures Round2(x) >= 0.0
  {
    var n := Round(x * 100.0);
    assert n as real > -0.5;
  }

  /** Rounding is monotone. */
  lemma Round2Monotone(x: real, y: real)
    requires x <= y
    ensures Round2(x) <= Round2(y)
  {
    assert (x * 100.0 + 0.5).Floor <= (y * 100.0 + 0.5).Floor;
  }

  /** Rounding two parts separately and adding differs from rounding the
      sum by at most one cent. */
  lemma Round2SumWithinCent(a: real, b: real)
    ensures -0.01 <= Round2(a) + Round2(b) - Round2(a + b) <= 0.01
  {
    var na, nb, nab := Round(a * 100.0), Round(b * 100.0), Round((a + b) * 100.0);
    assert -2 < na + nb - nab < 2;
    assert Round2(a) + Round2(b) - Round2(a + b) == (na + nb - nab) as real / 100.0;
  }

  /** `Math.pow(x, n)` for a whole, non-negative exponent. */
  function Pow(x: real, n: nat): real
  {
    if n == 0 then 1.0 else x * Pow(x, n - 1)
  }

  /** Bernoulli's inequality: compounding a non-negative rate over `n`
      periods yields at least simple interest over `n` periods. */
  lemma {:induction false} PowAtLeastSimple(a: real, n: nat)
    requires a >= 0.0
    ensures Pow(1.0 + a, n) >= 1.0 + n as real * a
  {
    if n > 0 {
      PowAtLeastSimple(a, n - 1);
      var k := (n - 1) as real;
      var p, q := Pow(1.0 + a, n - 1), 1.0 + k * a;
      MulMonotone(1.0 + a, q, p);
      MulNonNegative(k * a, a);
      assert (1.0 + a) * q == 1.0 + (k + 1.0) * a + k * a * a;
    }
  }

  lemma MulMonotone(c: real, x: real, y: real)
    requires c >= 0.0 && x <= y
    ensures c * x <= c * y
  {
    MulNonNegative(c, y - x);
  }

  lemma MulNonNegative(x: real, y: real)
    requires x >= 0.0 && y >= 0.0
    ensures x * y >= 0.0
  {
  }

  /** A growth factor above one, compounded at least once, stays above one. */
  lemma PowAboveOne(a: real, n: nat)
    requires a > 0.0 && n >= 1
    ensures Pow(1.0 + a, n) > 1.0
  {
    PowAtLeastSimple(a, n);
    assert n as real * a > 0.0;
  }

  /** `arr.reduce((a, b) => a + b, 0)`: the sum of a sequence, folded from
      the left. */
  function Sum(xs: seq<real>): real
  {
    if |xs| == 0 then 0.0 else Sum(xs[..|xs| - 1]) + xs[|xs| - 1]
  }

  /** Summing a concatenation is adding the sums of its parts. */
  lemma {:induction false} SumAppend(xs: seq<real>, ys: seq<real>)
    ensures Sum(xs + ys) == Sum(xs) + Sum(ys)
  {
    if |ys| > 0 {
      assert (xs + ys)[..|xs + ys| - 1] == xs + ys[..|ys| - 1];
      SumAppend(xs, ys[..|ys| - 1]);
    } else {
      assert xs + ys == xs;
    }
  }

  /** A sum of non-negative terms is non-negative. */
  lemma {:induction false} SumNonNegative(xs: seq<real>)
    requires forall i :: 0 <= i < |xs| ==> xs[i] >= 0.0
    ensures Sum(xs) >= 0.0
  {
    if |xs| > 0 {
      SumNonNegative(xs[..|xs| - 1]);
    }
  }

  /** When each `xs[i] + ys[i]` is within `eps` of `zs[i]`, the column sums
      are within `eps` per term of each other. */
  lemma {:induction false} SumsWithin(xs: seq<real>, ys: seq<real>, zs: seq<real>, eps: real)
    requires |xs| == |ys| == |zs|
    requires forall i :: 0 <= i < |xs| ==> -eps <= xs[i] + ys[i] - zs[i] <= eps
    ensures -eps * |xs| as real <= Sum(xs) + Sum(ys) - Sum(zs) <= eps * |xs| as real
  {
    if |xs| > 0 {
      var n := |xs| - 1;
      SumsWithin(xs[..n], ys[..n], zs[..n], eps);
      assert eps * |xs| as real == eps * n as real + eps;
    }
  }

  /** A sum of zeros is zero. */
  lemma {:induction false} SumOfZeros(xs: seq<real>)
    requires forall i :: 0 <= i < |xs| ==> xs[i] == 0.0
    ensures Sum(xs) == 0.0
  {
    if |xs| > 0 {
      SumOfZeros(xs[..|xs| - 1]);
    }
  }
}
