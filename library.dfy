/**
  The reference-library readers of `AIAFile`: `_txt_file`/`_txt_ref`,
  `_msl_file`/`_msl_ref` and the assembly done by `ref_build`, as functions
  over the lines of the file. Each function consumes a prefix of the lines it
  is given and returns the rest, which models the one line iterator that the
  outer and inner loops of the source share.

  A record is a `NAME` line, then `key: value` metadata lines, then a line
  containing `NUM PEAK` followed by peak lines; a whitespace-only line ends
  the record. `.txt` peak lines are whitespace-separated pairs, `.msl` peak
  lines hold any number of `(mass intensity)` groups, starting with the
  marker line itself. Python exceptions become an error value together with
  the library as far as it was built when the exception was raised.
 */
module RefLibrary {
  import opened Wrappers
  import opened Numeric
  import opened Text
  import opened PeakPattern
  import opened Reference

  datatype Format = Txt | Msl

  /**
    `line.isspace()` as each reader sees it: `.txt` lines are byte strings,
    `.msl` lines are decoded by `codecs.open`.
   */
  predicate IsBlank(fmt: Format, line: string)
  {
    match fmt
    case Txt => IsByteSpace(line)
    case Msl => IsSpace(line)
  }

  /** The state `ref_build` fills: `ref_array`, `ref_files` and `ref_meta`. */
  datatype Library = Library(refArray: seq<seq<real>>, refFiles: seq<string>,
                             refMeta: map<string, map<string, string>>)

  const Empty: Library := Library([], [], map[])

  /** The exceptions of the readers: what Python raises, and the NaN spectrum NumPy returns. */
  datatype RefError =
    | MissingField(line: string)     // `line.split(':')[1]` on a line without a colon
    | TooFewTokens(line: string)     // a `.txt` peak line with a single token
    | BadMass(token: string)         // a mass that `int(...)` rejects
    | BadIntensity(token: string)    // an intensity that `float(...)` rejects
    | NaNSpectrum                    // a spectrum whose largest entry is 0
    | UnexpectedEnd                  // `next(fobj)` at the end of a `.msl` file

  /** What reading from a position yields: the unread lines, the library, an error if one was raised. */
  datatype Parsed = Parsed(rest: seq<string>, lib: Library, err: Option<RefError>)

  /** What reading one peak block yields. `blank` says it ended at a whitespace-only line. */
  datatype Block = Block(rest: seq<string>, blank: bool, masses: seq<string>, intensities: seq<string>,
                         err: Option<RefError>)

  /** Lines as a file iterator yields them: never empty, so `line[0]` is defined. */
  predicate ValidLines(ls: seq<string>)
  {
    forall i :: 0 <= i < |ls| ==> |ls[i]| > 0
  }

  lemma ValidConcat(a: seq<string>, b: seq<string>)
    requires ValidLines(a) && ValidLines(b)
    ensures ValidLines(a + b)
  {
    forall i | 0 <= i < |a + b|
      ensures |(a + b)[i]| > 0
    {
      if i >= |a| {
        assert (a + b)[i] == b[i - |a|];
      }
    }
  }

  /** `r` is what is left of `ls` after consuming a prefix. */
  predicate SuffixOf(r: seq<string>, ls: seq<string>)
  {
    |r| <= |ls| && r == ls[|ls| - |r|..]
  }

  lemma SuffixTransitive(a: seq<string>, b: seq<string>, c: seq<string>)
    requires SuffixOf(a, b) && SuffixOf(b, c)
    ensures SuffixOf(a, c)
  {
    assert c[|c| - |b|..][|b| - |a|..] == c[|c| - |a|..];
  }

  lemma SuffixValid(r: seq<string>, ls: seq<string>)
    requires SuffixOf(r, ls) && ValidLines(ls)
    ensures ValidLines(r)
  {
    forall i | 0 <= i < |r|
      ensures |r[i]| > 0
    {
      assert r[i] == ls[|ls| - |r| + i];
    }
  }

  // ---------------------------------------------------------------------
  // Token conversion: `np.array(masses, dtype=int)`, `np.array(intensities, dtype=float)`.

  function ParseMasses(toks: seq<string>): (r: Result<seq<int>, RefError>)
    ensures r.Success? ==> |r.value| == |toks| && forall i :: 0 <= i < |toks| ==> ParseInt(toks[i]) == Some(r.value[i])
    ensures r.Failure? ==> exists i :: 0 <= i < |toks| && ParseInt(toks[i]).None? && r.error == BadMass(toks[i])
    decreases |toks|
  {
    if |toks| == 0 then Success([])
    else match ParseInt(toks[0])
      case None => Failure(BadMass(toks[0]))
      case Some(m) =>
        match ParseMasses(toks[1..])
        case Failure(e) => Failure(e)
        case Success(rest) => Success([m] + rest)
  }

  function ParseIntensities(toks: seq<string>): (r: Result<seq<real>, RefError>)
    ensures r.Success? ==> |r.value| == |toks| && forall i :: 0 <= i < |toks| ==> ParseFloat(toks[i]) == Some(r.value[i])
    ensures r.Failure? ==> exists i :: 0 <= i < |toks| && ParseFloat(toks[i]).None? && r.error == BadIntensity(toks[i])
    decreases |toks|
  {
    if |toks| == 0 then Success([])
    else match ParseFloat(toks[0])
      case None => Failure(BadIntensity(toks[0]))
      case Some(x) =>
        match ParseIntensities(toks[1..])
        case Failure(e) => Failure(e)
        case Success(rest) => Success([x] + rest)
  }

  /** `_ref_extend(mass, inten)` on the token lists a peak block collected. */
  function SpectrumOf(massToks: seq<string>, intenToks: seq<string>, lo: int, hi: int): Result<seq<real>, RefError>
    requires lo <= hi
  {
    match ParseMasses(massToks)
    case Failure(e) => Failure(e)
    case Success(ms) =>
      match ParseIntensities(intenToks)
      case Failure(e) => Failure(e)
      case Success(xs) =>
        if |ms| != |xs| then Failure(BadIntensity([]))
        else match RefSpectrum(ms, xs, lo, hi)
          case None => Failure(NaNSpectrum)
          case Some(v) => Success(v)
  }

  /** A converted spectrum has one entry per mass of the axis. */
  lemma SpectrumOfWidth(massToks: seq<string>, intenToks: seq<string>, lo: int, hi: int)
    requires lo <= hi && SpectrumOf(massToks, intenToks, lo, hi).Success?
    ensures |SpectrumOf(massToks, intenToks, lo, hi).value| == hi - lo + 1
  {
  }

  // ---------------------------------------------------------------------
  // Peak blocks.

  /**
    The inner loop of `_txt_ref`: each line up to the first whitespace-only
    one is split on whitespace and contributes its first two tokens.
   */
  function TxtPeaks(ls: seq<string>, masses: seq<string>, intensities: seq<string>): (b: Block)
    ensures SuffixOf(b.rest, ls)
    decreases |ls|
  {
    if |ls| == 0 then Block([], false, masses, intensities, None)
    else if IsByteSpace(ls[0]) then Block(ls[1..], true, masses, intensities, None)
    else
      var vals := Words(ls[0]);
      if |vals| < 2 then Block(ls[1..], false, masses, intensities, Some(TooFewTokens(ls[0])))
      else
        var b := TxtPeaks(ls[1..], masses + [vals[0]], intensities + [vals[1]]);
        SuffixTransitive(b.rest, ls[1..], ls);
        b
  }

  /** The first groups of `re.findall` matches: the mass tokens. */
  function MassTokens(pairs: seq<(string, string)>): (r: seq<string>)
    ensures |r| == |pairs| && forall k :: 0 <= k < |pairs| ==> r[k] == pairs[k].0
  {
    seq(|pairs|, k requires 0 <= k < |pairs| => pairs[k].0)
  }

  /** The second groups of `re.findall` matches: the intensity tokens. */
  function IntensityTokens(pairs: seq<(string, string)>): (r: seq<string>)
    ensures |r| == |pairs| && forall k :: 0 <= k < |pairs| ==> r[k] == pairs[k].1
  {
    seq(|pairs|, k requires 0 <= k < |pairs| => pairs[k].1)
  }

  /**
    The `while not space` loop of `_msl_ref`: `line` is the current line
    (first the marker line); every `(mass intensity)` group on it is
    collected, then the next line is fetched, and a whitespace-only one
    ends the block. Running out of lines is `next(fobj)` raising.
   */
  function MslPeaks(line: string, ls: seq<string>, masses: seq<string>, intensities: seq<string>): (b: Block)
    ensures SuffixOf(b.rest, ls)
    decreases |ls|
  {
    var pairs := FindAll(line);
    var masses' := masses + MassTokens(pairs);
    var intensities' := intensities + IntensityTokens(pairs);
    if |ls| == 0 then Block([], false, masses', intensities', Some(UnexpectedEnd))
    else if IsSpace(ls[0]) then Block(ls[1..], true, masses', intensities', None)
    else
      var b := MslPeaks(ls[0], ls[1..], masses', intensities');
      SuffixTransitive(b.rest, ls[1..], ls);
      b
  }

  /** The peak block that starts at the marker line `ls[0]`. */
  function PeakBlock(fmt: Format, ls: seq<string>): (b: Block)
    requires |ls| > 0
    ensures SuffixOf(b.rest, ls[1..])
  {
    match fmt
    case Txt => TxtPeaks(ls[1..], [], [])
    case Msl => MslPeaks(ls[0], ls[1..], [], [])
  }

  // ---------------------------------------------------------------------
  // Records and files.

  /** Set `ref_meta[name][key] = value`. */
  function SetMeta(lib: Library, name: string, key: string, value: string): Library
    requires name in lib.refMeta
  {
    lib.(refMeta := lib.refMeta[name := lib.refMeta[name][key := value]])
  }

  /**
    `_txt_ref` / `_msl_ref`: reads the body of the record `name` up to and
    including the whitespace-only line that ends it.
   */
  function ReadRecord(fmt: Format, ls: seq<string>, name: string, lo: int, hi: int, lib: Library): (r: Parsed)
    requires ValidLines(ls) && name in lib.refMeta && lo <= hi
    ensures SuffixOf(r.rest, ls)
    decreases |ls|
  {
    if |ls| == 0 then Parsed([], lib, None)
    else
      var line := ls[0];
      if line[0] == '#' then
        var r := ReadRecord(fmt, ls[1..], name, lo, hi, lib);
        SuffixTransitive(r.rest, ls[1..], ls);
        r
      else if Contains(line, "NUM PEAK") then
        var b := PeakBlock(fmt, ls);
        SuffixTransitive(b.rest, ls[1..], ls);
        if b.err.Some? then Parsed(b.rest, lib, b.err)
        else match SpectrumOf(b.masses, b.intensities, lo, hi)
          case Failure(e) => Parsed(b.rest, lib, Some(e))
          case Success(spec) =>
            var lib' := lib.(refArray := lib.refArray + [spec]);
            if b.blank then Parsed(b.rest, lib', None)
            else
              SuffixValid(b.rest, ls);
              var r := ReadRecord(fmt, b.rest, name, lo, hi, lib');
              SuffixTransitive(r.rest, b.rest, ls);
              r
      else if !IsBlank(fmt, line) then
        var fields := Split(line, ':');
        if |fields| < 2 then Parsed(ls[1..], lib, Some(MissingField(line)))
        else
          var r := ReadRecord(fmt, ls[1..], name, lo, hi, SetMeta(lib, name, fields[0], Strip(fields[1])));
          SuffixTransitive(r.rest, ls[1..], ls);
          r
      else Parsed(ls[1..], lib, None)
  }

  // One turn of the record loop, case by case.

  lemma ReadRecordComment(fmt: Format, ls: seq<string>, name: string, lo: int, hi: int, lib: Library)
    requires ValidLines(ls) && name in lib.refMeta && lo <= hi && |ls| > 0 && ls[0][0] == '#'
    ensures ValidLines(ls[1..])
    ensures ReadRecord(fmt, ls, name, lo, hi, lib) == ReadRecord(fmt, ls[1..], name, lo, hi, lib)
  {
    SuffixValid(ls[1..], ls);
  }

  lemma ReadRecordPeaks(fmt: Format, ls: seq<string>, name: string, lo: int, hi: int, lib: Library)
    requires ValidLines(ls) && name in lib.refMeta && lo <= hi && |ls| > 0
    requires ls[0][0] != '#' && Contains(ls[0], "NUM PEAK")
    ensures var b := PeakBlock(fmt, ls);
            SuffixOf(b.rest, ls) && ValidLines(b.rest)
            && ReadRecord(fmt, ls, name, lo, hi, lib)
               == if b.err.Some? then Parsed(b.rest, lib, b.err)
                  else
                    var sp := SpectrumOf(b.masses, b.intensities, lo, hi);
                    if sp.Failure? then Parsed(b.rest, lib, Some(sp.error))
                    else
                      var lib' := lib.(refArray := lib.refArray + [sp.value]);
                      if b.blank then Parsed(b.rest, lib', None) else ReadRecord(fmt, b.rest, name, lo, hi, lib')
  {
    var b := PeakBlock(fmt, ls);
    SuffixTransitive(b.rest, ls[1..], ls);
    SuffixValid(b.rest, ls);
  }

  /** The peaks branch of `ReadRecord` when the block itself is malformed. */
  lemma ReadRecordPeaksBroken(fmt: Format, ls: seq<string>, name: string, lo: int, hi: int, lib: Library,
                              rest: seq<string>, blank: bool, masses: seq<string>, intensities: seq<string>, e: RefError)
    requires ValidLines(ls) && name in lib.refMeta && lo <= hi && |ls| > 0
    requires ls[0][0] != '#' && Contains(ls[0], "NUM PEAK")
    requires PeakBlock(fmt, ls) == Block(rest, blank, masses, intensities, Some(e))
    ensures ValidLines(rest)
    ensures ReadRecord(fmt, ls, name, lo, hi, lib) == Parsed(rest, lib, Some(e))
  {
    ReadRecordPeaks(fmt, ls, name, lo, hi, lib);
  }

  /** The peaks branch of `ReadRecord` when the tokens do not convert to a spectrum. */
  lemma ReadRecordPeaksRejected(fmt: Format, ls: seq<string>, name: string, lo: int, hi: int, lib: Library,
                                rest: seq<string>, blank: bool, masses: seq<string>, intensities: seq<string>, e: RefError)
    requires ValidLines(ls) && name in lib.refMeta && lo <= hi && |ls| > 0
    requires ls[0][0] != '#' && Contains(ls[0], "NUM PEAK")
    requires PeakBlock(fmt, ls) == Block(rest, blank, masses, intensities, None)
    requires SpectrumOf(masses, intensities, lo, hi) == Failure(e)
    ensures ValidLines(rest)
    ensures ReadRecord(fmt, ls, name, lo, hi, lib) == Parsed(rest, lib, Some(e))
  {
    ReadRecordPeaks(fmt, ls, name, lo, hi, lib);
  }

  /** The peaks branch of `ReadRecord` once the block has been read and placed. */
  lemma ReadRecordPeaksStored(fmt: Format, ls: seq<string>, name: string, lo: int, hi: int, lib: Library,
                              rest: seq<string>, blank: bool, masses: seq<string>, intensities: seq<string>, s: seq<real>)
    requires ValidLines(ls) && name in lib.refMeta && lo <= hi && |ls| > 0
    requires ls[0][0] != '#' && Contains(ls[0], "NUM PEAK")
    requires PeakBlock(fmt, ls) == Block(rest, blank, masses, intensities, None)
    requires SpectrumOf(masses, intensities, lo, hi) == Success(s)
    ensures ValidLines(rest)
    ensures var lib' := lib.(refArray := lib.refArray + [s]);
            ReadRecord(fmt, ls, name, lo, hi, lib)
            == if blank then Parsed(rest, lib', None) else ReadRecord(fmt, rest, name, lo, hi, lib')
  {
    ReadRecordPeaks(fmt, ls, name, lo, hi, lib);
  }

  lemma ReadRecordMeta(fmt: Format, ls: seq<string>, name: string, lo: int, hi: int, lib: Library)
    requires ValidLines(ls) && name in lib.refMeta && lo <= hi && |ls| > 0
    requires ls[0][0] != '#' && !Contains(ls[0], "NUM PEAK") && !IsBlank(fmt, ls[0])
    ensures ValidLines(ls[1..])
    ensures var fields := Split(ls[0], ':');
            ReadRecord(fmt, ls, name, lo, hi, lib)
            == if |fields| < 2 then Parsed(ls[1..], lib, Some(MissingField(ls[0])))
               else ReadRecord(fmt, ls[1..], name, lo, hi, SetMeta(lib, name, fields[0], Strip(fields[1])))
  {
    SuffixValid(ls[1..], ls);
  }

  lemma ReadRecordBlank(fmt: Format, ls: seq<string>, name: string, lo: int, hi: int, lib: Library)
    requires ValidLines(ls) && name in lib.refMeta && lo <= hi && |ls| > 0
    requires ls[0][0] != '#' && !Contains(ls[0], "NUM PEAK") && IsBlank(fmt, ls[0])
    ensures ReadRecord(fmt, ls, name, lo, hi, lib) == Parsed(ls[1..], lib, None)
  {
  }

  /** Every spectrum a record adds spans the mass axis, so the library stays a matrix. */
  lemma {:induction false} ReadRecordRows(fmt: Format, ls: seq<string>, name: string, lo: int, hi: int, lib: Library)
    requires ValidLines(ls) && name in lib.refMeta && lo <= hi
    requires Rows(lib.refArray, hi - lo + 1)
    ensures Rows(ReadRecord(fmt, ls, name, lo, hi, lib).lib.refArray, hi - lo + 1)
    decreases |ls|
  {
    if |ls| > 0 {
      var line := ls[0];
      if line[0] == '#' {
        ReadRecordComment(fmt, ls, name, lo, hi, lib);
        ReadRecordRows(fmt, ls[1..], name, lo, hi, lib);
      } else if Contains(line, "NUM PEAK") {
        ReadRecordPeaks(fmt, ls, name, lo, hi, lib);
        var b := PeakBlock(fmt, ls);
        if b.err.None? {
          var sp := SpectrumOf(b.masses, b.intensities, lo, hi);
          if sp.Success? {
            var lib' := lib.(refArray := lib.refArray + [sp.value]);
            SpectrumOfWidth(b.masses, b.intensities, lo, hi);
            RowsAppend(lib.refArray, sp.value, hi - lo + 1);
            if !b.blank {
              ReadRecordRows(fmt, b.rest, name, lo, hi, lib');
            }
          }
        }
      } else if !IsBlank(fmt, line) {
        ReadRecordMeta(fmt, ls, name, lo, hi, lib);
        var fields := Split(line, ':');
        if |fields| >= 2 {
          ReadRecordRows(fmt, ls[1..], name, lo, hi, SetMeta(lib, name, fields[0], Strip(fields[1])));
        }
      }
    }
  }

  /**
    `_txt_file` / `_msl_file`: skips `#` lines and lines without `NAME`; a
    `NAME` line opens a record named by its second `:`-field, stripped.
   */
  function ReadFile(fmt: Format, ls: seq<string>, lo: int, hi: int, lib: Library): (r: Parsed)
    requires ValidLines(ls) && lo <= hi
    ensures SuffixOf(r.rest, ls)
    decreases |ls|
  {
    if |ls| == 0 then Parsed([], lib, None)
    else
      var line := ls[0];
      if line[0] == '#' || !Contains(line, "NAME") then
        var r := ReadFile(fmt, ls[1..], lo, hi, lib);
        SuffixTransitive(r.rest, ls[1..], ls);
        r
      else
        var fields := Split(line, ':');
        if |fields| < 2 then Parsed(ls[1..], lib, Some(MissingField(line)))
        else
          var name := Strip(fields[1]);
          var lib0 := lib.(refFiles := lib.refFiles + [name], refMeta := lib.refMeta[name := map[]]);
          var r := ReadRecord(fmt, ls[1..], name, lo, hi, lib0);
          SuffixTransitive(r.rest, ls[1..], ls);
          if r.err.Some? then r
          else
            SuffixValid(r.rest, ls);
            var r' := ReadFile(fmt, r.rest, lo, hi, r.lib);
            SuffixTransitive(r'.rest, r.rest, ls);
            r'
  }

  // ---------------------------------------------------------------------
  // Library assembly: `ref_build`.

  /** Which reader `ref_build` dispatches to: the last three characters, lower-cased. */
  function FormatOf(fileName: string): Option<Format>
  {
    var ext := Lower(LastThree(fileName));
    if ext == "txt" then Some(Txt) else if ext == "msl" then Some(Msl) else None
  }

  /** The reading part of `ref_build`, from a fresh, empty library. */
  function ReadLibrary(fileName: string, lines: seq<string>, lo: int, hi: int): Parsed
    requires ValidLines(lines) && lo <= hi
  {
    match FormatOf(fileName)
    case Some(fmt) => ReadFile(fmt, lines, lo, hi, Empty)
    case None => Parsed(lines, Empty, None)
  }

  /** Reading a file keeps every row of the library as wide as the mass axis. */
  lemma {:induction false} ReadFileRows(fmt: Format, ls: seq<string>, lo: int, hi: int, lib: Library)
    requires ValidLines(ls) && lo <= hi
    requires Rows(lib.refArray, hi - lo + 1)
    ensures Rows(ReadFile(fmt, ls, lo, hi, lib).lib.refArray, hi - lo + 1)
    decreases |ls|
  {
    if |ls| > 0 {
      var line := ls[0];
      SuffixValid(ls[1..], ls);
      if line[0] == '#' || !Contains(line, "NAME") {
        ReadFileRows(fmt, ls[1..], lo, hi, lib);
      } else {
        var fields := Split(line, ':');
        if |fields| >= 2 {
          var name := Strip(fields[1]);
          var lib0 := lib.(refFiles := lib.refFiles + [name], refMeta := lib.refMeta[name := map[]]);
          ReadRecordRows(fmt, ls[1..], name, lo, hi, lib0);
          var r := ReadRecord(fmt, ls[1..], name, lo, hi, lib0);
          if r.err.None? {
            SuffixTransitive(r.rest, ls[1..], ls);
            SuffixValid(r.rest, ls);
            ReadFileRows(fmt, r.rest, lo, hi, r.lib);
          }
        }
      }
    }
  }

  /** The library `ref_build` reads is a matrix with one column per mass of the axis. */
  lemma LibraryRows(fileName: string, lines: seq<string>, lo: int, hi: int)
    requires ValidLines(lines) && lo <= hi
    ensures Rows(ReadLibrary(fileName, lines, lo, hi).lib.refArray, hi - lo + 1)
  {
    var fmt := FormatOf(fileName);
    if fmt.Some? {
      ReadFileRows(fmt.value, lines, lo, hi, Empty);
    }
  }

  /**
    `np.abs(times - t).argmin()`: the first scan among those whose time is
    nearest to `t`.
   */
  function NearestScan(times: seq<real>, t: real): (i: nat)
    requires |times| > 0
    ensures i < |times|
    ensures forall j :: 0 <= j < |times| ==> Abs(times[i] - t) <= Abs(times[j] - t)
    ensures forall j :: 0 <= j < i ==> Abs(times[j] - t) > Abs(times[i] - t)
    decreases |times|
  {
    if |times| == 1 then 0
    else
      var n := |times| - 1;
      var b := NearestScan(times[..n], t);
      assert forall j :: 0 <= j < n ==> times[..n][j] == times[j];
      if Abs(times[n] - t) < Abs(times[b] - t) then n else b
  }

  /** The outcome of `ref_build`: the library, the background scan index if one was taken, an error. */
  datatype Built = Built(lib: Library, bkgIdx: Option<nat>, err: Option<RefError>)

  /** Rows that all span the mass axis. */
  predicate Rows(m: seq<seq<real>>, width: nat)
  {
    forall i :: 0 <= i < |m| ==> |m[i]| == width
  }

  lemma RowsAppend(m: seq<seq<real>>, row: seq<real>, width: nat)
    requires Rows(m, width) && |row| == width
    ensures Rows(m + [row], width)
  {
    forall i | 0 <= i < |m| + 1
      ensures |(m + [row])[i]| == width
    {
      if i < |m| {
        assert (m + [row])[i] == m[i];
      }
    }
  }

  /**
    `ref_build`: discard the old library, read the reference file, then, if
    `bkg` holds, append the intensity row of the scan nearest `bkgTime`,
    divided by its largest entry, under the name `Background`.
   */
  function Build(fileName: string, lines: seq<string>, bkg: bool, bkgTime: real,
                 times: seq<real>, intensity: seq<seq<real>>, lo: int, hi: int): (b: Built)
    requires ValidLines(lines) && lo <= hi
    requires |times| > 0 && |intensity| == |times| && Rows(intensity, hi - lo + 1)
    ensures Rows(b.lib.refArray, hi - lo + 1)
  {
    LibraryRows(fileName, lines, lo, hi);
    var p := ReadLibrary(fileName, lines, lo, hi);
    if p.err.Some? then Built(p.lib, None, p.err)
    else if !bkg then Built(p.lib, None, None)
    else
      var idx := NearestScan(times, bkgTime);
      var row := intensity[idx];
      if MaxOf(row) == 0.0 then Built(p.lib, None, Some(NaNSpectrum))
      else
        RowsAppend(p.lib.refArray, Normalize(row), hi - lo + 1);
        Built(p.lib.(refArray := p.lib.refArray + [Normalize(row)],
                        refFiles := p.lib.refFiles + ["Background"]), Some(idx), None)
  }

  /** Without `bkg`, `ref_build` is the reader alone: nothing is appended and no background scan is taken. */
  lemma BuildWithoutBackground(fileName: string, lines: seq<string>, bkgTime: real,
                               times: seq<real>, intensity: seq<seq<real>>, lo: int, hi: int)
    requires ValidLines(lines) && lo <= hi
    requires |times| > 0 && |intensity| == |times| && Rows(intensity, hi - lo + 1)
    ensures var p := ReadLibrary(fileName, lines, lo, hi);
      Build(fileName, lines, false, bkgTime, times, intensity, lo, hi) == Built(p.lib, None, p.err)
  {
  }

  /**
    With `bkg` and no error, `ref_build` appends exactly one entry, last in
    both lists: `Background`, the nearest scan's row divided by its
    maximum, whose largest value is 1 when the row has a positive entry.
   */
  lemma BuildBackgroundLast(fileName: string, lines: seq<string>, bkgTime: real,
                            times: seq<real>, intensity: seq<seq<real>>, lo: int, hi: int)
    requires ValidLines(lines) && lo <= hi
    requires |times| > 0 && |intensity| == |times| && Rows(intensity, hi - lo + 1)
    requires Build(fileName, lines, true, bkgTime, times, intensity, lo, hi).err.None?
    ensures var p, b := ReadLibrary(fileName, lines, lo, hi), Build(fileName, lines, true, bkgTime, times, intensity, lo, hi);
      var idx := NearestScan(times, bkgTime);
      var n := |p.lib.refArray|;
      b.bkgIdx == Some(idx) && p.err.None?
      && b.lib.refFiles == p.lib.refFiles + ["Background"] && b.lib.refMeta == p.lib.refMeta
      && |b.lib.refArray| == n + 1 && b.lib.refArray[..n] == p.lib.refArray
      && b.lib.refArray[n] == Normalize(intensity[idx])
      && (MaxOf(intensity[idx]) > 0.0 ==>
            (forall k :: 0 <= k < |b.lib.refArray[n]| ==> b.lib.refArray[n][k] <= 1.0)
            && (exists k :: 0 <= k < |b.lib.refArray[n]| && b.lib.refArray[n][k] == 1.0))
  {
    var idx := NearestScan(times, bkgTime);
    if MaxOf(intensity[idx]) > 0.0 {
      NormalizePeak(intensity[idx]);
    }
  }
}
