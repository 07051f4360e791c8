/**
  `AIAFile._ref_extend`: aligns one reference spectrum, given as peak masses
  and intensities, with the file's mass axis `lo .. hi`. Only peaks whose
  mass lies strictly between `lo` and `hi` are kept; they are written, in
  order, into a zero vector at column `mass - lo` (a later peak at the same
  mass overwrites an earlier one), and the vector is divided by its largest
  entry. A vector whose largest entry is 0 would become NaN in NumPy; here
  that outcome is `None`.
 */
module Reference {
  import opened Wrappers
  import opened Numeric

  /** The mask of `_ref_extend`: `mass > min` and `mass < max`, both strict. */
  predicate Kept(m: int, lo: int, hi: int)
  {
    lo < m < hi
  }

  /** What the ordered writes leave in column `k`: the last kept peak there, if any. */
  function Placed(ms: seq<int>, xs: seq<real>, lo: int, hi: int, k: int): Option<real>
    requires |ms| == |xs|
    decreases |ms|
  {
    if |ms| == 0 then None
    else
      var n := |ms| - 1;
      if Kept(ms[n], lo, hi) && ms[n] - lo == k then Some(xs[n]) else Placed(ms[..n], xs[..n], lo, hi, k)
  }

  function ValueOrZero(p: Option<real>): real
  {
    match p
    case Some(x) => x
    case None => 0.0
  }

  /** The zero vector over the axis with the kept peaks written in: `spec[masses] = intensities`. */
  function Scattered(ms: seq<int>, xs: seq<real>, lo: int, hi: int): (v: seq<real>)
    requires |ms| == |xs| && lo <= hi
    ensures |v| == hi - lo + 1
  {
    seq(hi - lo + 1, k requires 0 <= k < hi - lo + 1 => ValueOrZero(Placed(ms, xs, lo, hi, k)))
  }

  /** `v / v.max()`. */
  function Normalize(v: seq<real>): (r: seq<real>)
    requires |v| > 0 && MaxOf(v) != 0.0
    ensures |r| == |v|
  {
    seq(|v|, k requires 0 <= k < |v| => v[k] / MaxOf(v))
  }

  /** The aligned, normalised spectrum, or `None` where NumPy would produce NaN. */
  function RefSpectrum(ms: seq<int>, xs: seq<real>, lo: int, hi: int): Option<seq<real>>
    requires |ms| == |xs| && lo <= hi
  {
    var v := Scattered(ms, xs, lo, hi);
    if MaxOf(v) == 0.0 then None else Some(Normalize(v))
  }

  /** `_ref_extend` on masses and intensities already converted to numbers. */
  method RefExtend(ms: seq<int>, xs: seq<real>, lo: int, hi: int) returns (r: Option<seq<real>>)
    requires |ms| == |xs| && lo <= hi
    ensures r == RefSpectrum(ms, xs, lo, hi)
  {
    var spec := new real[hi - lo + 1](_ => 0.0);
    var j := 0;
    while j < |ms|
      invariant 0 <= j <= |ms|
      invariant forall k :: 0 <= k < spec.Length ==> spec[k] == ValueOrZero(Placed(ms[..j], xs[..j], lo, hi, k))
    {
      assert ms[..j + 1][..j] == ms[..j] && xs[..j + 1][..j] == xs[..j];
      if Kept(ms[j], lo, hi) {
        spec[ms[j] - lo] := xs[j];
      }
      j := j + 1;
    }
    assert ms[..|ms|] == ms && xs[..|xs|] == xs;
    var v := spec[..];
    assert v == Scattered(ms, xs, lo, hi);
    var top := MaxOf(v);
    if top == 0.0 {
      r := None;
    } else {
      r := Some(seq(|v|, k requires 0 <= k < |v| => v[k] / top));
    }
  }

  // ---------------------------------------------------------------------
  // Properties.

  /** A written column lies strictly inside the axis: the two end columns are never written. */
  lemma {:induction false} PlacedInterior(ms: seq<int>, xs: seq<real>, lo: int, hi: int, k: int)
    requires |ms| == |xs|
    requires Placed(ms, xs, lo, hi, k).Some?
    ensures 0 < k < hi - lo
    decreases |ms|
  {
    var n := |ms| - 1;
    if !(Kept(ms[n], lo, hi) && ms[n] - lo == k) {
      PlacedInterior(ms[..n], xs[..n], lo, hi, k);
    }
  }

  /** Last write wins: the last kept peak at a column is the value the column keeps. */
  lemma {:induction false} PlacedLast(ms: seq<int>, xs: seq<real>, lo: int, hi: int, j: nat)
    requires |ms| == |xs| && j < |ms| && Kept(ms[j], lo, hi)
    requires forall i :: j < i < |ms| ==> ms[i] != ms[j]
    ensures Placed(ms, xs, lo, hi, ms[j] - lo) == Some(xs[j])
    decreases |ms|
  {
    var n := |ms| - 1;
    if j < n {
      assert ms[..n][j] == ms[j];
      PlacedLast(ms[..n], xs[..n], lo, hi, j);
    }
  }

  /** A column is written exactly when some kept peak has that column's mass. */
  lemma {:induction false} PlacedSomeIff(ms: seq<int>, xs: seq<real>, lo: int, hi: int, k: int)
    requires |ms| == |xs|
    ensures Placed(ms, xs, lo, hi, k).Some? <==> exists j :: 0 <= j < |ms| && Kept(ms[j], lo, hi) && ms[j] - lo == k
    decreases |ms|
  {
    if |ms| > 0 {
      var n := |ms| - 1;
      PlacedSomeIff(ms[..n], xs[..n], lo, hi, k);
      if exists j :: 0 <= j < n && Kept(ms[..n][j], lo, hi) && ms[..n][j] - lo == k {
        var j :| 0 <= j < n && Kept(ms[..n][j], lo, hi) && ms[..n][j] - lo == k;
        assert ms[j] == ms[..n][j];
      }
      if exists j :: 0 <= j < |ms| && Kept(ms[j], lo, hi) && ms[j] - lo == k {
        var j :| 0 <= j < |ms| && Kept(ms[j], lo, hi) && ms[j] - lo == k;
        if j < n {
          assert ms[..n][j] == ms[j];
        }
      }
    }
  }

  /** The NaN case: the spectrum is undefined exactly when no column holds a positive value. */
  lemma RefSpectrumDefinedIff(ms: seq<int>, xs: seq<real>, lo: int, hi: int)
    requires |ms| == |xs| && lo <= hi
    ensures RefSpectrum(ms, xs, lo, hi).Some? <==>
      exists k :: 0 <= k < hi - lo + 1 && Scattered(ms, xs, lo, hi)[k] > 0.0
  {
    var v := Scattered(ms, xs, lo, hi);
    if Placed(ms, xs, lo, hi, 0).Some? {
      PlacedInterior(ms, xs, lo, hi, 0);
    }
    assert v[0] == 0.0;
  }

  /**
    Entries of a defined spectrum: one per mass of the axis, each column's
    last kept intensity (0 without one) divided by the largest entry `top`,
    which is positive; both end columns are 0.
   */
  lemma RefSpectrumEntries(ms: seq<int>, xs: seq<real>, lo: int, hi: int)
    requires |ms| == |xs| && lo <= hi
    requires RefSpectrum(ms, xs, lo, hi).Some?
    ensures var r, top := RefSpectrum(ms, xs, lo, hi).value, MaxOf(Scattered(ms, xs, lo, hi));
      |r| == hi - lo + 1 && top > 0.0 &&
      (forall k :: 0 <= k < |r| ==> r[k] == ValueOrZero(Placed(ms, xs, lo, hi, k)) / top) &&
      r[0] == 0.0 && r[hi - lo] == 0.0
  {
    RefSpectrumDefinedIff(ms, xs, lo, hi);
    if Placed(ms, xs, lo, hi, 0).Some? {
      PlacedInterior(ms, xs, lo, hi, 0);
    }
    if Placed(ms, xs, lo, hi, hi - lo).Some? {
      PlacedInterior(ms, xs, lo, hi, hi - lo);
    }
  }

  /** Dividing by a positive maximum gives a vector that peaks at exactly 1. */
  lemma NormalizePeak(v: seq<real>)
    requires |v| > 0 && MaxOf(v) > 0.0
    ensures var r := Normalize(v);
      (forall k :: 0 <= k < |r| ==> r[k] <= 1.0) && (exists k :: 0 <= k < |r| && r[k] == 1.0)
  {
    var top := MaxOf(v);
    var r := Normalize(v);
    forall k | 0 <= k < |r|
      ensures r[k] <= 1.0
    {
      DivideByPositive(v[k], top);
    }
    var kt :| 0 <= kt < |v| && v[kt] == top;
    DivideByPositive(v[kt], top);
    assert r[kt] == 1.0;
  }

  /** A defined spectrum peaks at exactly 1: no entry exceeds 1 and some entry equals 1. */
  lemma RefSpectrumPeakIsOne(ms: seq<int>, xs: seq<real>, lo: int, hi: int)
    requires |ms| == |xs| && lo <= hi
    requires RefSpectrum(ms, xs, lo, hi).Some?
    ensures var r := RefSpectrum(ms, xs, lo, hi).value;
      (forall k :: 0 <= k < |r| ==> r[k] <= 1.0) && (exists k :: 0 <= k < |r| && r[k] == 1.0)
  {
    RefSpectrumDefinedIff(ms, xs, lo, hi);
    NormalizePeak(Scattered(ms, xs, lo, hi));
  }

  /**
    With distinct peak masses every kept peak appears as its own intensity
    over the largest one, and the largest entry is the largest kept intensity.
   */
  lemma RefSpectrumDistinct(ms: seq<int>, xs: seq<real>, lo: int, hi: int)
    requires |ms| == |xs| && lo <= hi
    requires forall i, j :: 0 <= i < j < |ms| ==> ms[i] != ms[j]
    requires RefSpectrum(ms, xs, lo, hi).Some?
    ensures var r, top := RefSpectrum(ms, xs, lo, hi).value, MaxOf(Scattered(ms, xs, lo, hi));
      (forall j :: 0 <= j < |ms| && Kept(ms[j], lo, hi) ==> xs[j] <= top && r[ms[j] - lo] == xs[j] / top) &&
      (exists j :: 0 <= j < |ms| && Kept(ms[j], lo, hi) && xs[j] == top)
  {
    var v := Scattered(ms, xs, lo, hi);
    var top := MaxOf(v);
    forall j | 0 <= j < |ms| && Kept(ms[j], lo, hi)
      ensures v[ms[j] - lo] == xs[j]
    {
      PlacedLast(ms, xs, lo, hi, j);
    }
    RefSpectrumDefinedIff(ms, xs, lo, hi);
    var kt :| 0 <= kt < |v| && v[kt] == top;
    assert Placed(ms, xs, lo, hi, kt).Some?;
    PlacedSomeIff(ms, xs, lo, hi, kt);
    var jt :| 0 <= jt < |ms| && Kept(ms[jt], lo, hi) && ms[jt] - lo == kt;
    assert xs[jt] == top;
  }

  /** Non-negative peaks give a spectrum with every entry between 0 and 1. */
  lemma RefSpectrumUnitRange(ms: seq<int>, xs: seq<real>, lo: int, hi: int)
    requires |ms| == |xs| && lo <= hi
    requires forall j :: 0 <= j < |xs| ==> xs[j] >= 0.0
    requires RefSpectrum(ms, xs, lo, hi).Some?
    ensures var r := RefSpectrum(ms, xs, lo, hi).value;
      forall k :: 0 <= k < |r| ==> 0.0 <= r[k] <= 1.0
  {
    RefSpectrumPeakIsOne(ms, xs, lo, hi);
    RefSpectrumDefinedIff(ms, xs, lo, hi);
    var v := Scattered(ms, xs, lo, hi);
    var top := MaxOf(v);
    var r := RefSpectrum(ms, xs, lo, hi).value;
    forall k | 0 <= k < |r|
      ensures r[k] >= 0.0
    {
      PlacedNonNegative(ms, xs, lo, hi, k);
      assert r[k] == v[k] / top;
      DivideByPositive(v[k], top);
    }
  }

  lemma {:induction false} PlacedNonNegative(ms: seq<int>, xs: seq<real>, lo: int, hi: int, k: int)
    requires |ms| == |xs|
    requires forall j :: 0 <= j < |xs| ==> xs[j] >= 0.0
    ensures ValueOrZero(Placed(ms, xs, lo, hi, k)) >= 0.0
    decreases |ms|
  {
    if |ms| > 0 {
      var n := |ms| - 1;
      PlacedNonNegative(ms[..n], xs[..n], lo, hi, k);
    }
  }

  /** Peaks at the axis ends are dropped: a spectrum whose every peak sits on `lo` or `hi` is undefined. */
  lemma EndPeaksDropped(ms: seq<int>, xs: seq<real>, lo: int, hi: int)
    requires |ms| == |xs| && lo <= hi
    requires forall j :: 0 <= j < |ms| ==> ms[j] == lo || ms[j] == hi
    ensures RefSpectrum(ms, xs, lo, hi) == None
  {
    var v := Scattered(ms, xs, lo, hi);
    forall k | 0 <= k < |v|
      ensures v[k] == 0.0
    {
      PlacedSomeIff(ms, xs, lo, hi, k);
    }
    RefSpectrumDefinedIff(ms, xs, lo, hi);
  }
}
