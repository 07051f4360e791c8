/**
  Real-number helpers used across the model: sums, extrema, the half-to-even
  rounding that NumPy's `np.round` applies to raw masses, and absolute value.
 */
module Numeric {

  /** Sum of a vector (NumPy's `sum` over one axis). */
  function Sum(s: seq<real>): real
    decreases |s|
  {
    if |s| == 0 then 0.0 else s[0] + Sum(s[1..])
  }

  /** A vector of `n` zeros (`np.zeros(n)`). */
  function Zeros(n: nat): (z: seq<real>)
    ensures |z| == n && forall k :: 0 <= k < n ==> z[k] == 0.0
  {
    seq(n, _ => 0.0)
  }

  /** Largest entry (`ndarray.max()`). */
  function MaxOf(s: seq<real>): (m: real)
    requires |s| > 0
    ensures forall k :: 0 <= k < |s| ==> s[k] <= m
    ensures exists k :: 0 <= k < |s| && s[k] == m
    decreases |s|
  {
    if |s| == 1 then s[0]
    else
      var rest := MaxOf(s[1..]);
      assert forall k :: 1 <= k < |s| ==> s[k] == s[1..][k - 1];
      if s[0] >= rest then s[0] else rest
  }

  /** Smallest entry (`ndarray.min()`). */
  function MinOf(s: seq<real>): (m: real)
    requires |s| > 0
    ensures forall k :: 0 <= k < |s| ==> m <= s[k]
    ensures exists k :: 0 <= k < |s| && s[k] == m
    decreases |s|
  {
    if |s| == 1 then s[0]
    else
      var rest := MinOf(s[1..]);
      assert forall k :: 1 <= k < |s| ==> s[k] == s[1..][k - 1];
      if s[0] <= rest then s[0] else rest
  }

  function Abs(x: real): (a: real)
    ensures a >= 0.0 && (a == x || a == -x)
  {
    if x < 0.0 then -x else x
  }

  /**
    Round to the nearest integer, halves to the even neighbour: the rule of
    `np.round` with zero decimals.
   */
  function RoundHalfEven(x: real): int
  {
    var f := x.Floor;
    var d := x - f as real;
    if d < 0.5 then f
    else if d > 0.5 then f + 1
    else if f % 2 == 0 then f
    else f + 1
  }

  /** The rounded value is a nearest integer, and exact halves go to an even one. */
  lemma RoundHalfEvenNearest(x: real)
    ensures var r := RoundHalfEven(x);
      (x - r as real) <= 0.5 && (r as real - x) <= 0.5 &&
      ((x - r as real == 0.5 || r as real - x == 0.5) ==> r % 2 == 0)
  {
  }

  /** Rounding is monotone, so rounding the extremes bounds every rounded value. */
  lemma RoundHalfEvenMonotone(x: real, y: real)
    requires x <= y
    ensures RoundHalfEven(x) <= RoundHalfEven(y)
  {
    var fx, fy := x.Floor, y.Floor;
    if fx < fy {
      assert RoundHalfEven(x) <= fx + 1 <= fy <= RoundHalfEven(y);
    } else {
      assert fx == fy;
    }
  }

  /** Scaling every entry scales the sum: `sum(c * v) == c * sum(v)`. */
  lemma {:induction false} SumScale(c: real, v: seq<real>, w: seq<real>)
    requires |w| == |v|
    requires forall k :: 0 <= k < |v| ==> w[k] == c * v[k]
    ensures Sum(w) == c * Sum(v)
    decreases |v|
  {
    if |v| > 0 {
      SumScale(c, v[1..], w[1..]);
    }
  }

  /** A sum of non-negative entries is non-negative. */
  lemma {:induction false} SumNonNegative(v: seq<real>)
    requires forall k :: 0 <= k < |v| ==> v[k] >= 0.0
    ensures Sum(v) >= 0.0
    decreases |v|
  {
    if |v| > 0 {
      SumNonNegative(v[1..]);
    }
  }

  /** Dividing by a positive maximum maps `[0, t]` into `[0, 1]`. */
  lemma DivideByPositive(a: real, t: real)
    requires t > 0.0
    ensures a <= t ==> a / t <= 1.0
    ensures a >= 0.0 ==> a / t >= 0.0
    ensures t / t == 1.0
  {
  }

  /** `m.T` for a matrix whose rows all have `w` entries. */
  function Transpose(m: seq<seq<real>>, w: nat): (t: seq<seq<real>>)
    requires forall i :: 0 <= i < |m| ==> |m[i]| == w
    ensures |t| == w && forall j :: 0 <= j < w ==> |t[j]| == |m|
    ensures forall j, i :: 0 <= j < w && 0 <= i < |m| ==> t[j][i] == m[i][j]
  {
    seq(w, j requires 0 <= j < w => seq(|m|, i requires 0 <= i < |m| => m[i][j]))
  }
}
