/**
  The `AIAFile` class: the decoded data of one GC-MS run, the reference
  library built for it, the per-scan fits and the last integration. Each
  method updates the fields as the corresponding Python method does, and
  is proved to leave them as the specification functions of the other
  modules say.
 */
module Gcms {
  import opened Wrappers
  import opened Numeric
  import opened Text
  import opened PeakPattern
  import opened Decoder
  import opened Reference
  import opened RefLibrary
  import opened Integration

  /** The inner loop of `_txt_ref`: collect peak tokens up to a whitespace-only line. */
  method TxtPeakLines(lines: seq<string>, start: nat) returns (next: nat, blank: bool, ms: seq<string>, xs: seq<string>, err: Option<RefError>)
    requires start <= |lines|
    ensures start <= next <= |lines|
    ensures TxtPeaks(lines[start..], [], []) == Block(lines[next..], blank, ms, xs, err)
  {
    ms, xs := [], [];
    var i := start;
    while i < |lines|
      invariant start <= i <= |lines|
      invariant TxtPeaks(lines[i..], ms, xs) == TxtPeaks(lines[start..], [], [])
    {
      var line := lines[i];
      assert lines[i..][1..] == lines[i + 1..];
      i := i + 1;
      if IsByteSpace(line) {
        return i, true, ms, xs, None;
      }
      var vals := Words(line);
      if |vals| < 2 {
        return i, false, ms, xs, Some(TooFewTokens(line));
      }
      ms := ms + [vals[0]];
      xs := xs + [vals[1]];
    }
    return i, false, ms, xs, None;
  }

  /**
    The `while not space` loop of `_msl_ref`, starting at the marker line
    `lines[start]`: collect the groups of the current line, fetch the next
    one, stop at a whitespace-only line or fail at the end of the file.
   */
  method MslPeakLines(lines: seq<string>, start: nat) returns (next: nat, blank: bool, ms: seq<string>, xs: seq<string>, err: Option<RefError>)
    requires start < |lines|
    ensures start < next <= |lines|
    ensures MslPeaks(lines[start], lines[start + 1..], [], []) == Block(lines[next..], blank, ms, xs, err)
  {
    ms, xs := [], [];
    var line := lines[start];
    var i := start + 1;
    while true
      invariant start < i <= |lines|
      invariant MslPeaks(line, lines[i..], ms, xs) == MslPeaks(lines[start], lines[start + 1..], [], [])
      decreases |lines| - i
    {
      ms, xs := CollectPairs(FindAll(line), ms, xs);
      if i == |lines| {
        return i, false, ms, xs, Some(UnexpectedEnd);
      }
      assert lines[i..][1..] == lines[i + 1..];
      line := lines[i];
      i := i + 1;
      if IsSpace(line) {
        return i, true, ms, xs, None;
      }
    }
  }

  /** The `for val in vals` loop of `_msl_ref`: append each pair's mass and intensity, in order. */
  method CollectPairs(vals: seq<(string, string)>, ms0: seq<string>, xs0: seq<string>) returns (ms: seq<string>, xs: seq<string>)
    ensures ms == ms0 + MassTokens(vals) && xs == xs0 + IntensityTokens(vals)
  {
    ms, xs := ms0, xs0;
    for k := 0 to |vals|
      invariant ms == ms0 + MassTokens(vals[..k]) && xs == xs0 + IntensityTokens(vals[..k])
    {
      assert MassTokens(vals[..k + 1]) == MassTokens(vals[..k]) + [vals[k].0];
      assert IntensityTokens(vals[..k + 1]) == IntensityTokens(vals[..k]) + [vals[k].1];
      ms := ms + [vals[k].0];
      xs := xs + [vals[k].1];
    }
    assert vals[..|vals|] == vals;
  }

  /** The peak block whose marker line is `lines[start]`, in either format. */
  method PeakLines(fmt: Format, lines: seq<string>, start: nat) returns (next: nat, blank: bool, ms: seq<string>, xs: seq<string>, err: Option<RefError>)
    requires start < |lines|
    ensures start < next <= |lines|
    ensures PeakBlock(fmt, lines[start..]) == Block(lines[next..], blank, ms, xs, err)
  {
    assert lines[start..][1..] == lines[start + 1..];
    match fmt
    case Txt =>
      next, blank, ms, xs, err := TxtPeakLines(lines, start + 1);
    case Msl =>
      next, blank, ms, xs, err := MslPeakLines(lines, start);
  }

  lemma ValidTail(lines: seq<string>, i: nat)
    requires ValidLines(lines) && i <= |lines|
    ensures ValidLines(lines[i..])
  {
    assert forall k :: 0 <= k < |lines[i..]| ==> lines[i..][k] == lines[i + k];
  }

  class AIAFile {
    // `_AIAproc`
    var times: seq<real>
    var masses: seq<int>
    var intensity: seq<seq<real>>
    var tic: seq<real>
    // `ref_build`
    var refArray: seq<seq<real>>
    var refFiles: seq<string>
    var refMeta: map<string, map<string, string>>
    var bkgIdx: Option<nat>
    // `nnls`
    var fits: seq<seq<real>>
    // `integrate`
    var lastIntStart: real
    var lastIntStop: real
    var lastIntMask: seq<bool>
    var lastIntFits: seq<seq<real>>
    var lastIntMs: seq<seq<seq<real>>>
    var integral: seq<real>

    /** The mass axis is `arange(lo, hi + 1)`, there is at least one scan, and one intensity row and one TIC value per scan. */
    ghost predicate Valid()
      reads this`masses, this`intensity, this`times, this`tic
    {
      |masses| > 0 && IsAxis(masses, masses[0], masses[|masses| - 1])
      && |times| > 0 && |intensity| == |times| && Rows(intensity, |masses|)
      && |tic| == |times|
    }

    /** `self.masses.min()`. */
    function Lo(): int
      reads this`masses, this`intensity, this`times, this`tic
      requires Valid()
    {
      masses[0]
    }

    /** `self.masses.max()`. */
    function Hi(): int
      reads this`masses, this`intensity, this`times, this`tic
      requires Valid()
      ensures Lo() <= Hi()
    {
      masses[|masses| - 1]
    }

    function Lib(): Library
      reads this`refArray, this`refFiles, this`refMeta
    {
      Library(refArray, refFiles, refMeta)
    }

    /** The decoded run, which only the constructor writes. */
    ghost function Run(): (seq<real>, seq<int>, seq<seq<real>>, seq<real>)
      reads this`times, this`masses, this`intensity, this`tic
    {
      (times, masses, intensity, tic)
    }

    /** What `integrate` writes. */
    ghost function LastIntegration(): (real, real, seq<bool>, seq<seq<real>>, seq<seq<seq<real>>>, seq<real>)
      reads this`lastIntStart, this`lastIntStop, this`lastIntMask, this`lastIntFits, this`lastIntMs, this`integral
    {
      (lastIntStart, lastIntStop, lastIntMask, lastIntFits, lastIntMs, integral)
    }

    /**
      `AIAFile(fname)`: the arrays of the AIA file are the parameters. One
      scan time per point count, as the file's scan dimension guarantees.
      The library, fit and integration attributes that Python creates later
      start out empty here.
     */
    constructor (points: seq<nat>, scanTimes: seq<real>, massValues: seq<real>, intensityValues: seq<real>)
      requires |points| > 0 && |massValues| > 0 && |scanTimes| == |points|
      requires Total(points) <= |massValues| && Total(points) <= |intensityValues|
      ensures Valid()
      ensures |times| == |scanTimes| && forall i :: 0 <= i < |scanTimes| ==> times[i] == scanTimes[i] / 60.0
      ensures IsAxis(masses, MassMin(massValues), MassMax(massValues))
      ensures |intensity| == |points|
      ensures forall i :: 0 <= i < |points| ==>
        intensity[i] == ScanRow(points, massValues, intensityValues, i, MassMin(massValues), |masses|)
      ensures forall i :: 0 <= i < |points| ==> tic[i] == Sum(intensity[i])
      ensures Lib() == Empty && bkgIdx == None && fits == []
    {
      var t, m, x, c := Decode(points, scanTimes, massValues, intensityValues);
      times, masses, intensity, tic := t, m, x, c;
      refArray, refFiles, refMeta := [], [], map[];
      bkgIdx := None;
      fits := [];
      lastIntStart, lastIntStop := 0.0, 0.0;
      lastIntMask, lastIntFits, lastIntMs, integral := [], [], [], [];
    }

    /**
      `_ref_extend(mass, inten)`: convert the token lists, then place the
      peaks strictly inside the mass axis and scale by the largest.
     */
    method RefExtend(massToks: seq<string>, intenToks: seq<string>) returns (r: Result<seq<real>, RefError>)
      requires Valid()
      ensures r == SpectrumOf(massToks, intenToks, Lo(), Hi())
    {
      var ms := ParseMasses(massToks);
      if ms.Failure? {
        return Failure(ms.error);
      }
      var xs := ParseIntensities(intenToks);
      if xs.Failure? {
        return Failure(xs.error);
      }
      if |ms.value| != |xs.value| {
        return Failure(BadIntensity([]));
      }
      var spec := Reference.RefExtend(ms.value, xs.value, Lo(), Hi());
      if spec.None? {
        return Failure(NaNSpectrum);
      }
      return Success(spec.value);
    }

    /**
      The peak block of `_txt_ref` / `_msl_ref` that starts at `lines[i]`:
      read its peaks, convert them with `_ref_extend` and append the
      spectrum to `ref_array`. When the block ended at a blank line or
      failed, the record is over.
     */
    method ReadPeaks(fmt: Format, lines: seq<string>, i: nat, name: string) returns (next: nat, blank: bool, err: Option<RefError>)
      requires Valid() && ValidLines(lines) && i < |lines| && name in refMeta
      requires lines[i][0] != '#' && Contains(lines[i], "NUM PEAK")
      modifies this`refArray
      ensures i < next <= |lines| && ValidLines(lines[next..])
      ensures ReadRecord(fmt, lines[i..], name, Lo(), Hi(), old(Lib()))
              == if err.Some? || blank then Parsed(lines[next..], Lib(), err)
                 else ReadRecord(fmt, lines[next..], name, Lo(), Hi(), Lib())
    {
      ValidTail(lines, i);
      ghost var ls, lo, hi, lib := lines[i..], Lo(), Hi(), Lib();
      var ms, xs;
      next, blank, ms, xs, err := PeakLines(fmt, lines, i);
      ghost var rest := lines[next..];
      if err.Some? {
        ReadRecordPeaksBroken(fmt, ls, name, lo, hi, lib, rest, blank, ms, xs, err.value);
        return;
      }
      var spec := RefExtend(ms, xs);
      if spec.Failure? {
        ReadRecordPeaksRejected(fmt, ls, name, lo, hi, lib, rest, blank, ms, xs, spec.error);
        return next, blank, Some(spec.error);
      }
      ReadRecordPeaksStored(fmt, ls, name, lo, hi, lib, rest, blank, ms, xs, spec.value);
      refArray := refArray + [spec.value];
      assert Lib() == lib.(refArray := lib.refArray + [spec.value]);
    }

    /**
      A `key: value` line of `_txt_ref` / `_msl_ref`: the stripped value
      is stored under the key in the record's metadata; a line without a
      colon fails.
     */
    method ReadMeta(fmt: Format, lines: seq<string>, i: nat, name: string) returns (err: Option<RefError>)
      requires Valid() && ValidLines(lines) && i < |lines| && name in refMeta
      requires lines[i][0] != '#' && !Contains(lines[i], "NUM PEAK") && !IsBlank(fmt, lines[i])
      modifies this`refMeta
      ensures name in refMeta && ValidLines(lines[i + 1..])
      ensures ReadRecord(fmt, lines[i..], name, Lo(), Hi(), old(Lib()))
              == if err.Some? then Parsed(lines[i + 1..], Lib(), err)
                 else ReadRecord(fmt, lines[i + 1..], name, Lo(), Hi(), Lib())
    {
      ValidTail(lines, i);
      ghost var ls := lines[i..];
      assert ls[1..] == lines[i + 1..];
      ReadRecordMeta(fmt, ls, name, Lo(), Hi(), Lib());
      var meta := Split(lines[i], ':');
      if |meta| < 2 {
        return Some(MissingField(lines[i]));
      }
      refMeta := refMeta[name := refMeta[name][meta[0] := Strip(meta[1])]];
      return None;
    }

    /**
      One pass of the line loop of `_txt_ref` / `_msl_ref` at `lines[i]`:
      comments are skipped, a peak block or a `key: value` line is stored,
      and a blank line ends the record. `done` says the record is over.
     */
    method ReadLine(fmt: Format, lines: seq<string>, i: nat, name: string) returns (next: nat, done: bool, err: Option<RefError>)
      requires Valid() && ValidLines(lines) && i < |lines| && name in refMeta
      modifies this`refArray, this`refMeta
      ensures name in refMeta
      ensures i < next <= |lines| && ValidLines(lines[next..])
      ensures ReadRecord(fmt, lines[i..], name, Lo(), Hi(), old(Lib()))
              == if done then Parsed(lines[next..], Lib(), err)
                 else ReadRecord(fmt, lines[next..], name, Lo(), Hi(), Lib())
    {
      ValidTail(lines, i);
      ghost var ls := lines[i..];
      assert ls[1..] == lines[i + 1..];
      var line := lines[i];
      if line[0] == '#' {
        ReadRecordComment(fmt, ls, name, Lo(), Hi(), Lib());
        return i + 1, false, None;
      } else if Contains(line, "NUM PEAK") {
        var blank;
        next, blank, err := ReadPeaks(fmt, lines, i, name);
        done := err.Some? || blank;
      } else if !IsBlank(fmt, line) {
        err := ReadMeta(fmt, lines, i, name);
        next, done := i + 1, err.Some?;
      } else {
        ReadRecordBlank(fmt, ls, name, Lo(), Hi(), Lib());
        return i + 1, true, None;
      }
    }

    /**
      `_txt_ref` / `_msl_ref`: read the record `name` from `lines[start..]`,
      sharing the position with the caller; `next` is where the caller
      continues.
     */
    method ReadRef(fmt: Format, lines: seq<string>, start: nat, name: string) returns (next: nat, err: Option<RefError>)
      requires Valid() && ValidLines(lines) && start <= |lines| && name in refMeta
      modifies this`refArray, this`refMeta
      ensures Valid() && Run() == old(Run()) && bkgIdx == old(bkgIdx) && fits == old(fits)
      ensures LastIntegration() == old(LastIntegration())
      ensures start <= next <= |lines|
      ensures ValidLines(lines[start..])
      ensures ReadRecord(fmt, lines[start..], name, Lo(), Hi(), old(Lib())) == Parsed(lines[next..], Lib(), err)
    {
      ValidTail(lines, start);
      var i := start;
      while i < |lines|
        invariant start <= i <= |lines|
        invariant name in refMeta
        invariant ValidLines(lines[i..])
        invariant ReadRecord(fmt, lines[i..], name, Lo(), Hi(), Lib()) == ReadRecord(fmt, lines[start..], name, Lo(), Hi(), old(Lib()))
      {
        var after, done, e := ReadLine(fmt, lines, i, name);
        if done {
          return after, e;
        }
        i := after;
      }
      return i, None;
    }

    /**
      One pass of the line loop of `_txt_file` / `_msl_file` at `lines[i]`:
      a `NAME` line opens the record, which is recorded in `ref_files`,
      given empty metadata and read by `ReadRef`; any other line is
      skipped.
     */
    method ReadFileLine(fmt: Format, lines: seq<string>, i: nat) returns (next: nat, err: Option<RefError>)
      requires Valid() && ValidLines(lines) && i < |lines|
      modifies this`refArray, this`refFiles, this`refMeta
      ensures i < next <= |lines| && ValidLines(lines[next..])
      ensures ReadFile(fmt, lines[i..], Lo(), Hi(), old(Lib()))
              == if err.Some? then Parsed(lines[next..], Lib(), err)
                 else ReadFile(fmt, lines[next..], Lo(), Hi(), Lib())
    {
      ValidTail(lines, i + 1);
      assert lines[i..][1..] == lines[i + 1..];
      var line := lines[i];
      if line[0] == '#' || !Contains(line, "NAME") {
        return i + 1, None;
      }
      var sp := Split(line, ':');
      if |sp| < 2 {
        return i + 1, Some(MissingField(line));
      }
      var name := Strip(sp[1]);
      refFiles := refFiles + [name];
      refMeta := refMeta[name := map[]];
      next, err := ReadRef(fmt, lines, i + 1, name);
      ValidTail(lines, next);
    }

    /** `_txt_file` / `_msl_file`: read every record of the file. */
    method ReadRefFile(fmt: Format, lines: seq<string>) returns (err: Option<RefError>)
      requires Valid() && ValidLines(lines)
      modifies this`refArray, this`refFiles, this`refMeta
      ensures Valid() && Run() == old(Run()) && bkgIdx == old(bkgIdx) && fits == old(fits)
      ensures LastIntegration() == old(LastIntegration())
      ensures var p := ReadFile(fmt, lines, Lo(), Hi(), old(Lib())); Lib() == p.lib && err == p.err
    {
      var i := 0;
      while i < |lines|
        invariant 0 <= i <= |lines|
        invariant ValidLines(lines[i..])
        invariant ReadFile(fmt, lines[i..], Lo(), Hi(), Lib()) == ReadFile(fmt, lines, Lo(), Hi(), old(Lib()))
      {
        var next, e := ReadFileLine(fmt, lines, i);
        if e.Some? {
          return e;
        }
        i := next;
      }
      assert lines[i..] == [];
      return None;
    }

    /**
      `ref_build(ref_file, bkg, bkg_time)`: the lines of `ref_file` are a
      parameter. Starts a new library, reads it with the reader the file
      name's extension selects, then optionally appends the background.
     */
    method RefBuild(fileName: string, lines: seq<string>, bkg: bool, bkgTime: real) returns (err: Option<RefError>)
      requires Valid() && ValidLines(lines)
      modifies this`refArray, this`refFiles, this`refMeta, this`bkgIdx
      ensures Valid() && Run() == old(Run()) && fits == old(fits)
      ensures LastIntegration() == old(LastIntegration())
      ensures var b := Build(fileName, lines, bkg, bkgTime, times, intensity, Lo(), Hi());
              Lib() == b.lib && err == b.err && bkgIdx == (if b.bkgIdx.Some? then b.bkgIdx else old(bkgIdx))
      ensures Rows(refArray, |masses|)
    {
      ghost var lo, hi := Lo(), Hi();
      ghost var b := Build(fileName, lines, bkg, bkgTime, times, intensity, lo, hi);
      assert Rows(b.lib.refArray, |masses|) by {
        assert |masses| == hi - lo + 1;
      }
      err := LoadLibrary(fileName, lines);
      if err.None? && bkg {
        err := AddBackground(bkgTime);
      }
      assert Lib() == b.lib && err == b.err;
    }

    /** The reading part of `ref_build`: a new, empty library filled by the reader the extension selects. */
    method LoadLibrary(fileName: string, lines: seq<string>) returns (err: Option<RefError>)
      requires Valid() && ValidLines(lines)
      modifies this`refArray, this`refFiles, this`refMeta
      ensures var p := ReadLibrary(fileName, lines, Lo(), Hi()); Lib() == p.lib && err == p.err
    {
      refArray, refFiles, refMeta := [], [], map[];
      var fmt := FormatOf(fileName);
      if fmt.Some? {
        err := ReadRefFile(fmt.value, lines);
      } else {
        err := None;
      }
    }

    /**
      The background part of `ref_build`: the intensity row of the scan
      nearest `bkgTime`, divided by its largest entry, is appended under the
      name `Background`, and that scan is remembered in `bkg_idx`.
     */
    method AddBackground(bkgTime: real) returns (err: Option<RefError>)
      requires Valid()
      modifies this`refArray, this`refFiles, this`bkgIdx
      ensures var idx := NearestScan(times, bkgTime);
        if MaxOf(intensity[idx]) == 0.0 then err == Some(NaNSpectrum) && Lib() == old(Lib()) && bkgIdx == old(bkgIdx)
        else err == None && bkgIdx == Some(idx)
             && Lib() == old(Lib()).(refArray := old(refArray) + [Normalize(intensity[idx])],
                                     refFiles := old(refFiles) + ["Background"])
    {
      var idx := NearestScan(times, bkgTime);
      var row := intensity[idx];
      if MaxOf(row) == 0.0 {
        return Some(NaNSpectrum);
      }
      refArray := refArray + [Normalize(row)];
      refFiles := refFiles + ["Background"];
      bkgIdx := Some(idx);
      return None;
    }

    /**
      `nnls()`: one non-negative least-squares fit of each scan against the
      reference spectra. The SciPy solver is the parameter `solve`, called
      with `ref_array.T` and the scan's intensities.
     */
    method Nnls(solve: (seq<seq<real>>, seq<real>) -> seq<real>)
      requires Valid() && |refArray| > 0 && Rows(refArray, |masses|)
      modifies this`fits
      ensures Valid() && Run() == old(Run()) && Lib() == old(Lib()) && bkgIdx == old(bkgIdx)
      ensures LastIntegration() == old(LastIntegration())
      ensures |fits| == |intensity|
      ensures forall i :: 0 <= i < |intensity| ==> fits[i] == solve(Transpose(refArray, |masses|), intensity[i])
      ensures (forall a, b :: |solve(a, b)| == |refArray|) ==> |fits| == |times| && Shaped(fits, |refArray|)
    {
      var a := Transpose(refArray, |masses|);
      var fs: seq<seq<real>> := [];
      for i := 0 to |intensity|
        invariant |fs| == i
        invariant forall k :: 0 <= k < i ==> fs[k] == solve(a, intensity[k])
      {
        fs := fs + [solve(a, intensity[i])];
      }
      fits := fs;
    }

    /**
      `integrate(start, stop)`: integrate every compound over the scans
      strictly between `start` and `stop`, keep the intermediate arrays,
      and return the integrals.
     */
    method Integrate(start: real, stop: real) returns (result: seq<real>)
      requires |fits| == |times| && Shaped(fits, |refArray|)
      modifies this`lastIntStart, this`lastIntStop, this`lastIntMask, this`lastIntFits, this`lastIntMs, this`integral
      ensures Run() == old(Run()) && Lib() == old(Lib()) && bkgIdx == old(bkgIdx) && fits == old(fits)
      ensures var it := Integration.Integrate(times, fits, refArray, start, stop);
              lastIntStart == start && lastIntStop == stop && lastIntMask == it.mask && lastIntFits == it.chunk
              && lastIntMs == it.fitMs && integral == it.integral && result == it.integral
    {
      var mask := Window(times, start, stop);
      var chunk := Select(fits, mask);
      var fitMs := FitMs(chunk, refArray);
      var total := AxisTotals(fitMs, |refArray|);
      lastIntStart, lastIntStop := start, stop;
      lastIntMask, lastIntFits, lastIntMs := mask, chunk, fitMs;
      integral := total;
      return total;
    }
  }
}
