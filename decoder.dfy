/**
  The sparse-to-dense decoder of `AIAFile._AIAproc`: per-scan point counts,
  scan times and the flat mass and intensity arrays of an AIA (netCDF) file
  become a time axis in minutes, an integer mass axis, a dense
  scans-by-masses intensity matrix and the total-ion-current vector.
 */
module Decoder {
  import opened Numeric

  /** `np.round(v).astype(int)` on every raw mass. */
  function Rounded(v: seq<real>): (r: seq<int>)
    ensures |r| == |v| && forall j :: 0 <= j < |v| ==> r[j] == RoundHalfEven(v[j])
  {
    seq(|v|, j requires 0 <= j < |v| => RoundHalfEven(v[j]))
  }

  /** Lowest bin of the mass axis: `round(min(mass_values))`. */
  function MassMin(massValues: seq<real>): int
    requires |massValues| > 0
  {
    RoundHalfEven(MinOf(massValues))
  }

  /** Highest bin of the mass axis: `round(max(mass_values))`. */
  function MassMax(massValues: seq<real>): int
    requires |massValues| > 0
  {
    RoundHalfEven(MaxOf(massValues))
  }

  /** `masses` is `np.arange(lo, hi + 1)`: every integer from `lo` to `hi`, in order. */
  predicate IsAxis(masses: seq<int>, lo: int, hi: int)
  {
    lo <= hi && |masses| == hi - lo + 1 && forall k :: 0 <= k < |masses| ==> masses[k] == lo + k
  }

  /** Where scan `i` starts in the flat arrays: the points of all earlier scans. */
  function Offset(points: seq<nat>, i: nat): nat
    requires i <= |points|
  {
    if i == 0 then 0 else Offset(points, i - 1) + points[i - 1]
  }

  /** Total of the point counts. */
  function Total(points: seq<nat>): nat
  {
    Offset(points, |points|)
  }

  /** Sum of the intensities whose rounded mass is `m`. */
  function BinSum(ms: seq<int>, xs: seq<real>, m: int): real
    requires |ms| == |xs|
    decreases |ms|
  {
    if |ms| == 0 then 0.0
    else (if ms[0] == m then xs[0] else 0.0) + BinSum(ms[1..], xs[1..], m)
  }

  /** Number of points whose rounded mass is `m`. */
  function BinCount(ms: seq<int>, m: int): nat
    decreases |ms|
  {
    if |ms| == 0 then 0 else (if ms[0] == m then 1 else 0) + BinCount(ms[1..], m)
  }

  /** `groupby('round').mean()` at mass `m`, and 0 for a mass no point rounds to. */
  function BinMean(ms: seq<int>, xs: seq<real>, m: int): real
    requires |ms| == |xs|
  {
    if BinCount(ms, m) == 0 then 0.0 else BinSum(ms, xs, m) / BinCount(ms, m) as real
  }

  /**
    One dense row: a zero row over the mass axis `lo ..` of length `size`,
    with each group mean scattered to column `mass - lo`.
   */
  function GroupMeanRow(ms: seq<int>, xs: seq<real>, lo: int, size: nat): (row: seq<real>)
    requires |ms| == |xs|
    ensures |row| == size
  {
    seq(size, k requires 0 <= k < size => BinMean(ms, xs, lo + k))
  }

  /** The dense row of scan `i`: the group means of its slice of the flat arrays. */
  function ScanRow(points: seq<nat>, massValues: seq<real>, intensityValues: seq<real>,
                   i: nat, lo: int, size: nat): (row: seq<real>)
    requires i < |points|
    requires Total(points) <= |massValues| && Total(points) <= |intensityValues|
    ensures |row| == size
  {
    OffsetBounds(points, i);
    var first, last := Offset(points, i), Offset(points, i + 1);
    GroupMeanRow(Rounded(massValues[first..last]), intensityValues[first..last], lo, size)
  }

  // ---------------------------------------------------------------------
  // The decoding loop.

  /**
    `_AIAproc` without the netCDF read: the four arrays of the file are the
    parameters. The loop walks the scans with the running offset `start`.
   */
  method Decode(points: seq<nat>, scanTimes: seq<real>, massValues: seq<real>, intensityValues: seq<real>)
    returns (times: seq<real>, masses: seq<int>, intensity: seq<seq<real>>, tic: seq<real>)
    requires |points| > 0 && |massValues| > 0
    requires Total(points) <= |massValues| && Total(points) <= |intensityValues|
    ensures |times| == |scanTimes| && forall i :: 0 <= i < |scanTimes| ==> times[i] == scanTimes[i] / 60.0
    ensures IsAxis(masses, MassMin(massValues), MassMax(massValues))
    ensures |intensity| == |points|
    ensures forall i :: 0 <= i < |points| ==>
      intensity[i] == ScanRow(points, massValues, intensityValues, i, MassMin(massValues), |masses|)
    ensures |tic| == |points| && forall i :: 0 <= i < |points| ==> tic[i] == Sum(intensity[i])
  {
    times := seq(|scanTimes|, i requires 0 <= i < |scanTimes| => scanTimes[i] / 60.0);

    var massMin := RoundHalfEven(MinOf(massValues));
    var massMax := RoundHalfEven(MaxOf(massValues));
    RoundHalfEvenMonotone(MinOf(massValues), MaxOf(massValues));
    masses := seq(massMax - massMin + 1, k requires 0 <= k < massMax - massMin + 1 => massMin + k);

    var intens: seq<seq<real>> := [];
    var start := 0;
    var s := 0;
    while s < |points|
      invariant 0 <= s <= |points|
      invariant start == Offset(points, s)
      invariant |intens| == s
      invariant forall i :: 0 <= i < s ==>
        intens[i] == ScanRow(points, massValues, intensityValues, i, massMin, |masses|)
    {
      var row;
      row, start := DecodeScan(points, massValues, intensityValues, s, start, massMin, |masses|);
      intens := intens + [row];
      s := s + 1;
    }

    intensity := intens;
    tic := seq(|intensity|, i requires 0 <= i < |intensity| => Sum(intensity[i]));
  }

  /**
    One pass of the scan loop of `_AIAproc`: a scan without points gets the
    zero row, any other scan the group means of its slice, and the offset
    moves past the scan's points.
   */
  method DecodeScan(points: seq<nat>, massValues: seq<real>, intensityValues: seq<real>,
                    s: nat, start: nat, lo: int, size: nat) returns (row: seq<real>, next: nat)
    requires s < |points| && start == Offset(points, s)
    requires Total(points) <= |massValues| && Total(points) <= |intensityValues|
    ensures row == ScanRow(points, massValues, intensityValues, s, lo, size)
    ensures next == Offset(points, s + 1)
  {
    var point := points[s];
    OffsetBounds(points, s);
    var intZero := Zeros(size);
    if point == 0 {
      EmptyScanRow(points, massValues, intensityValues, s, lo, size);
      return intZero, start;
    }
    var massTmp := massValues[start..start + point];
    var intsTmp := intensityValues[start..start + point];
    return GroupMeanRow(Rounded(massTmp), intsTmp, lo, size), start + point;
  }

  // ---------------------------------------------------------------------
  // Properties.

  /** The offsets are increasing and stay within the flat arrays. */
  lemma OffsetBounds(points: seq<nat>, i: nat)
    requires i < |points|
    ensures Offset(points, i + 1) == Offset(points, i) + points[i]
    ensures Offset(points, i + 1) <= Total(points)
  {
    OffsetMonotone(points, i + 1);
  }

  lemma {:induction false} OffsetMonotone(points: seq<nat>, i: nat)
    requires i <= |points|
    ensures Offset(points, i) <= Total(points)
    decreases |points| - i
  {
    if i < |points| {
      OffsetMonotone(points, i + 1);
    }
  }

  /** A scan with no points yields an all-zero row. */
  lemma EmptyScanRow(points: seq<nat>, massValues: seq<real>, intensityValues: seq<real>,
                     i: nat, lo: int, size: nat)
    requires i < |points| && points[i] == 0
    requires Total(points) <= |massValues| && Total(points) <= |intensityValues|
    ensures ScanRow(points, massValues, intensityValues, i, lo, size) == Zeros(size)
  {
    OffsetBounds(points, i);
    var first := Offset(points, i);
    assert Offset(points, i + 1) == first;
    assert ScanRow(points, massValues, intensityValues, i, lo, size) == GroupMeanRow([], [], lo, size) by {
      assert Rounded(massValues[first..first]) == [];
      assert intensityValues[first..first] == [];
    }
    assert forall k :: 0 <= k < size ==> GroupMeanRow([], [], lo, size)[k] == BinMean([], [], lo + k) == 0.0;
  }

  /** Every rounded mass of the file lands on the mass axis. */
  lemma RoundedMassOnAxis(massValues: seq<real>, j: nat)
    requires j < |massValues|
    ensures MassMin(massValues) <= RoundHalfEven(massValues[j]) <= MassMax(massValues)
  {
    RoundHalfEvenMonotone(MinOf(massValues), massValues[j]);
    RoundHalfEvenMonotone(massValues[j], MaxOf(massValues));
  }

  /** A mass that only one point of the scan rounds to keeps that point's intensity. */
  lemma {:induction false} BinMeanSingle(ms: seq<int>, xs: seq<real>, j: nat)
    requires |ms| == |xs| && j < |ms|
    requires forall i :: 0 <= i < |ms| && i != j ==> ms[i] != ms[j]
    ensures BinMean(ms, xs, ms[j]) == xs[j]
  {
    BinSingle(ms, xs, ms[j], j);
  }

  lemma {:induction false} BinSingle(ms: seq<int>, xs: seq<real>, m: int, j: nat)
    requires |ms| == |xs| && j < |ms| && ms[j] == m
    requires forall i :: 0 <= i < |ms| && i != j ==> ms[i] != m
    ensures BinSum(ms, xs, m) == xs[j] && BinCount(ms, m) == 1
    decreases |ms|
  {
    if j == 0 {
      BinAbsent(ms[1..], xs[1..], m);
    } else {
      BinSingle(ms[1..], xs[1..], m, j - 1);
    }
  }

  /** A mass no point rounds to has an empty group. */
  lemma {:induction false} BinAbsent(ms: seq<int>, xs: seq<real>, m: int)
    requires |ms| == |xs|
    requires forall i :: 0 <= i < |ms| ==> ms[i] != m
    ensures BinSum(ms, xs, m) == 0.0 && BinCount(ms, m) == 0
    decreases |ms|
  {
    if |ms| > 0 {
      BinAbsent(ms[1..], xs[1..], m);
    }
  }

  /**
    Two points of a scan that round to the same mass, and no third one, give
    that bin the average `(a + b) / 2` of their intensities, not the sum.
   */
  lemma {:induction false} BinMeanPair(ms: seq<int>, xs: seq<real>, j1: nat, j2: nat)
    requires |ms| == |xs| && j1 < j2 < |ms| && ms[j1] == ms[j2]
    requires forall i :: 0 <= i < |ms| && i != j1 && i != j2 ==> ms[i] != ms[j1]
    ensures BinMean(ms, xs, ms[j1]) == (xs[j1] + xs[j2]) / 2.0
  {
    BinPair(ms, xs, ms[j1], j1, j2);
  }

  lemma {:induction false} BinPair(ms: seq<int>, xs: seq<real>, m: int, j1: nat, j2: nat)
    requires |ms| == |xs| && j1 < j2 < |ms| && ms[j1] == m && ms[j2] == m
    requires forall i :: 0 <= i < |ms| && i != j1 && i != j2 ==> ms[i] != m
    ensures BinSum(ms, xs, m) == xs[j1] + xs[j2] && BinCount(ms, m) == 2
    decreases |ms|
  {
    if j1 == 0 {
      BinSingle(ms[1..], xs[1..], m, j2 - 1);
    } else {
      BinPair(ms[1..], xs[1..], m, j1 - 1, j2 - 1);
    }
  }

  /**
    Sparse to dense and back: when no other point of scan `i` rounds to the
    same mass as point `j`, the dense row holds that point's raw intensity at
    the point's column on the file's mass axis.
   */
  lemma DenseLookup(points: seq<nat>, massValues: seq<real>, intensityValues: seq<real>, i: nat, j: nat)
    requires i < |points| && j < |massValues|
    requires Total(points) <= |massValues| && Total(points) <= |intensityValues|
    requires Offset(points, i) <= j < Offset(points, i) + points[i]
    requires UniqueInScan(Rounded(massValues), Offset(points, i), Offset(points, i) + points[i], j)
    ensures var lo, hi := MassMin(massValues), MassMax(massValues);
      lo <= RoundHalfEven(massValues[j]) <= hi && j < |intensityValues| &&
      ScanRow(points, massValues, intensityValues, i, lo, hi - lo + 1)[RoundHalfEven(massValues[j]) - lo]
        == intensityValues[j]
  {
    RoundedMassOnAxis(massValues, j);
    OffsetBounds(points, i);
    var lo, hi := MassMin(massValues), MassMax(massValues);
    RowLookup(points, massValues, intensityValues, i, j, lo, hi - lo + 1);
  }

  /** `DenseLookup` for any axis start `lo` and width that covers the point's rounded mass. */
  lemma RowLookup(points: seq<nat>, massValues: seq<real>, intensityValues: seq<real>, i: nat, j: nat,
                  lo: int, size: nat)
    requires i < |points| && j < |massValues|
    requires Total(points) <= |massValues| && Total(points) <= |intensityValues|
    requires Offset(points, i) <= j < Offset(points, i) + points[i]
    requires UniqueInScan(Rounded(massValues), Offset(points, i), Offset(points, i) + points[i], j)
    requires lo <= RoundHalfEven(massValues[j]) < lo + size
    ensures j < |intensityValues|
    ensures ScanRow(points, massValues, intensityValues, i, lo, size)[RoundHalfEven(massValues[j]) - lo]
      == intensityValues[j]
  {
    OffsetBounds(points, i);
    var first, last := Offset(points, i), Offset(points, i + 1);
    var mv, iv := massValues[first..last], intensityValues[first..last];
    var ms := Rounded(mv);
    var at := j - first;
    var col := RoundHalfEven(massValues[j]) - lo;
    assert BinMean(ms, iv, ms[at]) == iv[at] by {
      UniqueSlice(massValues, first, last, j);
      BinMeanSingle(ms, iv, at);
    }
    assert ms[at] == lo + col && iv[at] == intensityValues[j];
    assert ScanRow(points, massValues, intensityValues, i, lo, size) == GroupMeanRow(ms, iv, lo, size);
  }

  /** Uniqueness of a rounded mass carries over from the flat arrays to the scan's slice. */
  lemma UniqueSlice(massValues: seq<real>, first: nat, last: nat, j: nat)
    requires first <= j < last <= |massValues|
    requires UniqueInScan(Rounded(massValues), first, last, j)
    ensures forall i :: 0 <= i < last - first && i != j - first ==>
      Rounded(massValues[first..last])[i] != Rounded(massValues[first..last])[j - first]
  {
    var rm := Rounded(massValues);
    var ms := Rounded(massValues[first..last]);
    forall i | 0 <= i < last - first && i != j - first
      ensures ms[i] != ms[j - first]
    {
      assert ms[i] == rm[first + i] && ms[j - first] == rm[j];
    }
  }

  /** No point of the flat range `first .. last` other than `j` has `j`'s rounded mass. */
  predicate UniqueInScan(rm: seq<int>, first: nat, last: nat, j: nat)
  {
    forall i :: first <= i < last && i < |rm| && j < |rm| && i != j ==> rm[i] != rm[j]
  }
}
