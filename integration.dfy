/**
  `AIAFile.integrate`: the scans strictly inside a time window are selected,
  each compound's fitted weight is multiplied into its reference spectrum,
  and the products are summed over scans and masses. The reference
  definition `Area` says the same thing per compound: the sum over the
  scans in the window of weight times the spectrum's total.
 */
module Integration {
  import opened Numeric

  /** `(times > start) & (times < stop)`. */
  function Window(times: seq<real>, start: real, stop: real): (mask: seq<bool>)
    ensures |mask| == |times|
  {
    seq(|times|, i requires 0 <= i < |times| => start < times[i] && times[i] < stop)
  }

  /** Rows of a matrix, all of width `w`. */
  predicate Shaped(m: seq<seq<real>>, w: nat)
  {
    forall i :: 0 <= i < |m| ==> |m[i]| == w
  }

  /** Boolean indexing `rows[mask]` restricted to the first `n` rows. */
  function SelectUpTo(rows: seq<seq<real>>, mask: seq<bool>, n: nat): (r: seq<seq<real>>)
    requires |mask| == |rows| && n <= |rows|
    ensures |r| <= n
    ensures forall k :: 0 <= k < |r| ==> exists i :: 0 <= i < n && mask[i] && r[k] == rows[i]
  {
    if n == 0 then []
    else
      var r := SelectUpTo(rows, mask, n - 1);
      var r' := if mask[n - 1] then r + [rows[n - 1]] else r;
      assert forall k :: 0 <= k < |r| ==> r'[k] == r[k];
      r'
  }

  /** `rows[mask]`: the rows whose mask entry is set, in order. */
  function Select(rows: seq<seq<real>>, mask: seq<bool>): (r: seq<seq<real>>)
    requires |mask| == |rows|
    ensures |r| <= |rows|
  {
    SelectUpTo(rows, mask, |rows|)
  }

  /** `chunk[:, :, np.newaxis] * ref_array`: weight `chunk[s][r]` times spectrum `ref[r]`. */
  function FitMs(chunk: seq<seq<real>>, ref: seq<seq<real>>): (fm: seq<seq<seq<real>>>)
    requires Shaped(chunk, |ref|)
    ensures |fm| == |chunk|
    ensures forall s :: 0 <= s < |chunk| ==> |fm[s]| == |ref|
    ensures forall s, r :: 0 <= s < |chunk| && 0 <= r < |ref| ==> |fm[s][r]| == |ref[r]|
  {
    seq(|chunk|, s requires 0 <= s < |chunk| =>
      seq(|ref|, r requires 0 <= r < |ref| =>
        seq(|ref[r]|, m requires 0 <= m < |ref[r]| => chunk[s][r] * ref[r][m])))
  }

  /** The sum of `fm[s][r][m]` over the first `n` values of `s` and all `m`. */
  function ColumnTotal(fm: seq<seq<seq<real>>>, r: nat, n: nat): real
    requires n <= |fm| && forall s :: 0 <= s < |fm| ==> r < |fm[s]|
  {
    if n == 0 then 0.0 else ColumnTotal(fm, r, n - 1) + Sum(fm[n - 1][r])
  }

  /** `fit_ms.sum(axis=(0, 2))`. */
  function AxisTotals(fm: seq<seq<seq<real>>>, nrefs: nat): (t: seq<real>)
    requires forall s :: 0 <= s < |fm| ==> |fm[s]| == nrefs
    ensures |t| == nrefs
  {
    seq(nrefs, r requires 0 <= r < nrefs => ColumnTotal(fm, r, |fm|))
  }

  /** What `integrate` computes and stores. */
  datatype Integrated = Integrated(mask: seq<bool>, chunk: seq<seq<real>>, fitMs: seq<seq<seq<real>>>, integral: seq<real>)

  function Integrate(times: seq<real>, fits: seq<seq<real>>, ref: seq<seq<real>>, start: real, stop: real): (it: Integrated)
    requires |fits| == |times| && Shaped(fits, |ref|)
    ensures |it.integral| == |ref|
  {
    var mask := Window(times, start, stop);
    var chunk := Select(fits, mask);
    var fm := FitMs(chunk, ref);
    Integrated(mask, chunk, fm, AxisTotals(fm, |ref|))
  }

  // ---------------------------------------------------------------------
  // The reference definition.

  /** Weight `row[r]` times the total of `spectrum`. */
  function Gain(row: seq<real>, spectrum: seq<real>, r: nat): real
    requires r < |row|
  {
    row[r] * Sum(spectrum)
  }

  /** Compound `r`'s area over the first `n` scans: weight times spectrum total, for scans in the window. */
  function AreaUpTo(times: seq<real>, fits: seq<seq<real>>, ref: seq<seq<real>>, start: real, stop: real, r: nat, n: nat): real
    requires |fits| == |times| && Shaped(fits, |ref|) && r < |ref| && n <= |times|
  {
    if n == 0 then 0.0
    else
      AreaUpTo(times, fits, ref, start, stop, r, n - 1)
      + (if start < times[n - 1] < stop then Gain(fits[n - 1], ref[r], r) else 0.0)
  }

  function Area(times: seq<real>, fits: seq<seq<real>>, ref: seq<seq<real>>, start: real, stop: real, r: nat): real
    requires |fits| == |times| && Shaped(fits, |ref|) && r < |ref|
  {
    AreaUpTo(times, fits, ref, start, stop, r, |times|)
  }

  /** The weighted total of compound `r` over the first `n` rows of a chunk. */
  function Weighted(chunk: seq<seq<real>>, ref: seq<seq<real>>, r: nat, n: nat): real
    requires Shaped(chunk, |ref|) && r < |ref| && n <= |chunk|
  {
    if n == 0 then 0.0 else Weighted(chunk, ref, r, n - 1) + Gain(chunk[n - 1], ref[r], r)
  }

  // ---------------------------------------------------------------------
  // Lemmas.

  /** Summing the broadcast products of one compound is weighting its spectrum total. */
  lemma {:induction false} ColumnTotalIsWeighted(chunk: seq<seq<real>>, ref: seq<seq<real>>, r: nat, n: nat)
    requires Shaped(chunk, |ref|) && r < |ref| && n <= |chunk|
    ensures ColumnTotal(FitMs(chunk, ref), r, n) == Weighted(chunk, ref, r, n)
  {
    if n > 0 {
      ColumnTotalIsWeighted(chunk, ref, r, n - 1);
      var row := FitMs(chunk, ref)[n - 1][r];
      assert forall m :: 0 <= m < |row| ==> row[m] == chunk[n - 1][r] * ref[r][m];
      SumScale(chunk[n - 1][r], ref[r], row);
    }
  }

  lemma {:induction false} WeightedPrefix(a: seq<seq<real>>, b: seq<seq<real>>, ref: seq<seq<real>>, r: nat, n: nat)
    requires Shaped(a, |ref|) && Shaped(b, |ref|) && r < |ref| && n <= |a|
    ensures Shaped(a + b, |ref|)
    ensures Weighted(a + b, ref, r, n) == Weighted(a, ref, r, n)
  {
    assert forall i :: 0 <= i < |a| ==> (a + b)[i] == a[i];
    assert forall i :: |a| <= i < |a + b| ==> (a + b)[i] == b[i - |a|];
    if n > 0 {
      WeightedPrefix(a, b, ref, r, n - 1);
    }
  }

  lemma {:induction false} SelectShaped(rows: seq<seq<real>>, mask: seq<bool>, n: nat, w: nat)
    requires |mask| == |rows| && n <= |rows| && Shaped(rows, w)
    ensures Shaped(SelectUpTo(rows, mask, n), w)
  {
    if n > 0 {
      SelectShaped(rows, mask, n - 1, w);
      var prev := SelectUpTo(rows, mask, n - 1);
      assert forall k :: 0 <= k < |prev| ==> (prev + [rows[n - 1]])[k] == prev[k];
    }
  }

  lemma WeightedSnoc(a: seq<seq<real>>, f: seq<real>, ref: seq<seq<real>>, r: nat)
    requires Shaped(a, |ref|) && |f| == |ref| && r < |ref|
    ensures Shaped(a + [f], |ref|)
    ensures Weighted(a + [f], ref, r, |a| + 1) == Weighted(a, ref, r, |a|) + Gain(f, ref[r], r)
  {
    WeightedPrefix(a, [f], ref, r, |a|);
    assert (a + [f])[|a|] == f;
  }

  lemma SelectUpToStep(rows: seq<seq<real>>, mask: seq<bool>, n: nat)
    requires |mask| == |rows| && 0 < n <= |rows|
    ensures SelectUpTo(rows, mask, n)
            == if mask[n - 1] then SelectUpTo(rows, mask, n - 1) + [rows[n - 1]] else SelectUpTo(rows, mask, n - 1)
  {
  }

  lemma AreaUpToStep(times: seq<real>, fits: seq<seq<real>>, ref: seq<seq<real>>, start: real, stop: real, r: nat, n: nat)
    requires |fits| == |times| && Shaped(fits, |ref|) && r < |ref| && 0 < n <= |times|
    ensures AreaUpTo(times, fits, ref, start, stop, r, n)
            == AreaUpTo(times, fits, ref, start, stop, r, n - 1)
               + (if Window(times, start, stop)[n - 1] then Gain(fits[n - 1], ref[r], r) else 0.0)
  {
  }

  /** Weighting the selected rows is weighting the rows whose mask entry is set. */
  lemma {:induction false} SelectWeighted(times: seq<real>, fits: seq<seq<real>>, ref: seq<seq<real>>,
                                          start: real, stop: real, r: nat, n: nat)
    requires |fits| == |times| && Shaped(fits, |ref|) && r < |ref| && n <= |times|
    ensures Shaped(SelectUpTo(fits, Window(times, start, stop), n), |ref|)
    ensures Weighted(SelectUpTo(fits, Window(times, start, stop), n), ref, r, |SelectUpTo(fits, Window(times, start, stop), n)|)
            == AreaUpTo(times, fits, ref, start, stop, r, n)
  {
    var mask := Window(times, start, stop);
    SelectShaped(fits, mask, n, |ref|);
    if n > 0 {
      SelectWeighted(times, fits, ref, start, stop, r, n - 1);
      var prev := SelectUpTo(fits, mask, n - 1);
      SelectShaped(fits, mask, n - 1, |ref|);
      SelectUpToStep(fits, mask, n);
      AreaUpToStep(times, fits, ref, start, stop, r, n);
      if mask[n - 1] {
        WeightedSnoc(prev, fits[n - 1], ref, r);
      }
    }
  }

  /**
    `integrate` per compound: the integral of compound `r` is the sum over
    the scans strictly inside the window of its fitted weight times the
    total of its reference spectrum.
   */
  lemma IntegralIsArea(times: seq<real>, fits: seq<seq<real>>, ref: seq<seq<real>>, start: real, stop: real, r: nat)
    requires |fits| == |times| && Shaped(fits, |ref|) && r < |ref|
    ensures Integrate(times, fits, ref, start, stop).integral[r] == Area(times, fits, ref, start, stop, r)
  {
    var chunk := Select(fits, Window(times, start, stop));
    SelectWeighted(times, fits, ref, start, stop, r, |times|);
    ColumnTotalIsWeighted(chunk, ref, r, |chunk|);
  }

  /** No scan strictly inside the window: nothing is added over the first `n` scans. */
  lemma {:induction false} AreaEmptyUpTo(times: seq<real>, fits: seq<seq<real>>, ref: seq<seq<real>>, start: real, stop: real, r: nat, n: nat)
    requires |fits| == |times| && Shaped(fits, |ref|) && r < |ref| && n <= |times|
    requires forall s :: 0 <= s < |times| ==> !(start < times[s] < stop)
    ensures AreaUpTo(times, fits, ref, start, stop, r, n) == 0.0
  {
    if n > 0 {
      AreaEmptyUpTo(times, fits, ref, start, stop, r, n - 1);
      AreaUpToStep(times, fits, ref, start, stop, r, n);
    }
  }

  /** A window holding no scan strictly between `start` and `stop` integrates to zero for every compound. */
  lemma IntegralOfEmptyWindow(times: seq<real>, fits: seq<seq<real>>, ref: seq<seq<real>>, start: real, stop: real)
    requires |fits| == |times| && Shaped(fits, |ref|)
    requires forall s :: 0 <= s < |times| ==> !(start < times[s] < stop)
    ensures forall r :: 0 <= r < |ref| ==> Integrate(times, fits, ref, start, stop).integral[r] == 0.0
  {
    forall r | 0 <= r < |ref|
      ensures Integrate(times, fits, ref, start, stop).integral[r] == 0.0
    {
      IntegralIsArea(times, fits, ref, start, stop, r);
      AreaEmptyUpTo(times, fits, ref, start, stop, r, |times|);
    }
  }

  /** In particular an inverted window (`stop <= start`) integrates to zero. */
  lemma IntegralOfInvertedWindow(times: seq<real>, fits: seq<seq<real>>, ref: seq<seq<real>>, start: real, stop: real)
    requires |fits| == |times| && Shaped(fits, |ref|) && stop <= start
    ensures forall r :: 0 <= r < |ref| ==> Integrate(times, fits, ref, start, stop).integral[r] == 0.0
  {
    IntegralOfEmptyWindow(times, fits, ref, start, stop);
  }

  lemma {:induction false} AreaMonotoneUpTo(times: seq<real>, fits: seq<seq<real>>, ref: seq<seq<real>>,
                                            start: real, stop: real, start': real, stop': real, r: nat, n: nat)
    requires |fits| == |times| && Shaped(fits, |ref|) && r < |ref| && n <= |times|
    requires start' <= start && stop <= stop'
    requires forall s :: 0 <= s < |fits| ==> fits[s][r] >= 0.0
    requires Sum(ref[r]) >= 0.0
    ensures AreaUpTo(times, fits, ref, start, stop, r, n) <= AreaUpTo(times, fits, ref, start', stop', r, n)
  {
    if n > 0 {
      AreaMonotoneUpTo(times, fits, ref, start, stop, start', stop', r, n - 1);
      assert Gain(fits[n - 1], ref[r], r) >= 0.0;
    }
  }

  /**
    With non-negative weights and a non-negative spectrum (what `nnls` and
    `_ref_extend` produce from non-negative data), widening the window
    never decreases the integral.
   */
  lemma IntegralMonotone(times: seq<real>, fits: seq<seq<real>>, ref: seq<seq<real>>,
                         start: real, stop: real, start': real, stop': real, r: nat)
    requires |fits| == |times| && Shaped(fits, |ref|) && r < |ref|
    requires start' <= start && stop <= stop'
    requires forall s :: 0 <= s < |fits| ==> fits[s][r] >= 0.0
    requires forall m :: 0 <= m < |ref[r]| ==> ref[r][m] >= 0.0
    ensures Integrate(times, fits, ref, start, stop).integral[r] <= Integrate(times, fits, ref, start', stop').integral[r]
  {
    SumNonNegative(ref[r]);
    IntegralIsArea(times, fits, ref, start, stop, r);
    IntegralIsArea(times, fits, ref, start', stop', r);
    AreaMonotoneUpTo(times, fits, ref, start, stop, start', stop', r, |times|);
  }

  lemma {:induction false} AreaSplitUpTo(times: seq<real>, fits: seq<seq<real>>, ref: seq<seq<real>>,
                                         start: real, mid: real, stop: real, r: nat, n: nat)
    requires |fits| == |times| && Shaped(fits, |ref|) && r < |ref| && n <= |times|
    requires start <= mid <= stop
    requires forall s :: 0 <= s < |times| ==> times[s] != mid
    ensures AreaUpTo(times, fits, ref, start, stop, r, n)
            == AreaUpTo(times, fits, ref, start, mid, r, n) + AreaUpTo(times, fits, ref, mid, stop, r, n)
  {
    if n > 0 {
      AreaSplitUpTo(times, fits, ref, start, mid, stop, r, n - 1);
    }
  }

  /** Splitting a window at a time that is no scan's time splits the integral into two. */
  lemma IntegralSplit(times: seq<real>, fits: seq<seq<real>>, ref: seq<seq<real>>,
                      start: real, mid: real, stop: real, r: nat)
    requires |fits| == |times| && Shaped(fits, |ref|) && r < |ref|
    requires start <= mid <= stop
    requires forall s :: 0 <= s < |times| ==> times[s] != mid
    ensures Integrate(times, fits, ref, start, stop).integral[r]
            == Integrate(times, fits, ref, start, mid).integral[r] + Integrate(times, fits, ref, mid, stop).integral[r]
  {
    IntegralIsArea(times, fits, ref, start, stop, r);
    IntegralIsArea(times, fits, ref, start, mid, r);
    IntegralIsArea(times, fits, ref, mid, stop, r);
    AreaSplitUpTo(times, fits, ref, start, mid, stop, r, |times|);
  }

  /** `chunk` holds exactly as many rows as the window holds scans. */
  function CountUpTo(mask: seq<bool>, n: nat): nat
    requires n <= |mask|
  {
    if n == 0 then 0 else CountUpTo(mask, n - 1) + (if mask[n - 1] then 1 else 0)
  }

  lemma {:induction false} SelectLength(rows: seq<seq<real>>, mask: seq<bool>, n: nat)
    requires |mask| == |rows| && n <= |rows|
    ensures |SelectUpTo(rows, mask, n)| == CountUpTo(mask, n)
  {
    if n > 0 {
      SelectLength(rows, mask, n - 1);
    }
  }

  /** A window containing every scan selects every row, in order. */
  lemma {:induction false} SelectAll(rows: seq<seq<real>>, mask: seq<bool>, n: nat)
    requires |mask| == |rows| && n <= |rows|
    requires forall i :: 0 <= i < |mask| ==> mask[i]
    ensures SelectUpTo(rows, mask, n) == rows[..n]
  {
    if n > 0 {
      SelectAll(rows, mask, n - 1);
      assert rows[..n] == rows[..n - 1] + [rows[n - 1]];
    }
  }
}
