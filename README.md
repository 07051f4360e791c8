# A verified model of the `AIAFile` engine of gcms.py

`gcms.py` processes one gas-chromatography / mass-spectrometry run stored
as an AIA (netCDF) file. Its class `AIAFile`:

1. decodes the run (`_AIAproc`) into scan times in minutes, an integer mass
   axis, a dense intensity matrix with one row per scan, and the total ion
   current (TIC) of each scan;
2. builds a library of reference spectra (`ref_build`) from a `.txt` or
   `.msl` reference file (`_txt_file`/`_txt_ref`, `_msl_file`/`_msl_ref`).
   Each spectrum is placed on the run's mass axis and scaled to a maximum
   of 1 (`_ref_extend`). An optional normalised "Background" scan can be
   appended;
3. fits every scan against the library with non-negative least squares
   (`nnls`);
4. integrates each compound's fitted signal over a time window
   (`integrate`).

The model is written in Dafny. `AIAFile` is a class whose fields are the
Python attributes (module `Gcms`). Its methods update them step by step,
with the loops of the source, and each method is proved against a
specification function of one of these modules:

| module | contents |
|---|---|
| `Wrappers` | `Option` and `Result` |
| `Numeric` | sums, maxima, NumPy's half-to-even rounding, transposition |
| `Text` | the Python 2 string operations the parsers use: `split(':')`, `split()`, `strip()`, `isspace()`, `in`, `lower()`, `int()`, `float()` on decimal text, with byte whitespace for `str` and unicode whitespace for `unicode` |
| `PeakPattern` | the regular expression `\(\s*(\d*)\s*(\d*)\)` and `findall` |
| `Decoder` | the sparse-to-dense decoding of `_AIAproc` |
| `Reference` | `_ref_extend` |
| `RefLibrary` | the readers as functions over the remaining lines of the file, and `ref_build` |
| `RefRender` | a writer of well-formed reference files, and the round trip through the readers |
| `Integration` | `integrate` |
| `Gcms` | the `AIAFile` class |

Some choices in the model:

- **File contents are parameters.** The netCDF arrays are parameters of the
  constructor. A reference file is its sequence of lines. Every line is
  non-empty, as a line from Python's file iterator keeps its newline.
- **Both loops share one cursor.** The inner and outer loops of a reader
  advance the same line index, as they share one Python iterator.
- **Masses and intensities are `real`.**
- **Two kinds of whitespace.** `codecs.open` without an encoding returns the
  built-in byte file, so the `.txt` reader calls `isspace()` and `split()`
  on byte strings, which know only the blank and tab to carriage return
  (`Text.IsByteWhite`). The `.msl` reader's lines are decoded, and so is
  every piece of `split(':')` in both readers, because the module's string
  literals are unicode; their `isspace()` and `strip()` also treat the
  separators 0x1C to 0x1F, next line, no-break space and the Unicode spaces
  as whitespace (`Text.IsWhite`). Which test a blank line gets is
  `RefLibrary.IsBlank`. The ASCII decoding of a `.txt` line can fail; the
  model does not represent that failure (see "## Left out").
- **Python's exceptions are error outcomes.** A missing `:` field, a `.txt`
  peak line with one token, a token `int()`/`float()` rejects, or `next()`
  at the end of an `.msl` file all become an error value (`RefError`). Each ends the operation, and the library keeps what
  had been stored before the failure, as the Python attributes do.
- **A NaN spectrum is an error too, which Python does not make it.** When
  `spec/spec.max()` (gcms.py:127) or the background division (gcms.py:227)
  divides by a zero maximum, NumPy raises nothing: Python appends the NaN
  row and reading goes on. The model instead stops with `NaNSpectrum` and
  stores nothing; "## Left out" records this deviation.

The model follows the code where its behaviour is easy to misread:

- `_ref_extend` keeps only masses *strictly* between the first and last
  mass of the axis. So its first and last entries are always 0
  (`Reference.RefSpectrumEntries`, `Reference.EndPeaksDropped`).
- A record's name is the second `:`-field of any non-comment line that
  contains `NAME`.
- In `.msl` files the groups on the `NUM PEAK` line itself are collected
  too.
- A `.txt` peak block that reaches the end of the file without a blank
  line is still stored. Then the record reader ends because the file is
  exhausted.
- A record with no `NUM PEAK` block adds a name to `ref_files` but no
  spectrum to `ref_array`. So the two lists no longer line up. The model
  keeps this.
- With `bkg` false, `ref_build` leaves `_bkg_idx` as it was before the
  call.
- `integrate` excludes both window bounds.

## Model

| member | source | states |
|---|---|---|
| Decoder.Decode | gcms.py:66-115 | Times are the scan times divided by 60. The mass axis is every integer from the rounded smallest to the rounded largest mass. There is one row per scan: the group means of that scan's slice of the flat arrays. Each TIC value is the sum of its row. |
| Decoder.DecodeScan | gcms.py:84-107 | One pass of the scan loop yields exactly the dense row of its scan (zeros for a scan without points) and moves the offset past that scan's points. |
| Decoder.OffsetBounds | gcms.py:82-107 | The running offset advances by exactly the scan's point count, so scan `i` reads the flat slice `[Σ points[<i], Σ points[≤i])`, which lies within the arrays. |
| Decoder.OffsetMonotone | gcms.py:82-107 | No scan's starting offset passes the total number of points. |
| Decoder.EmptyScanRow | gcms.py:85-89 | A scan with zero points has an all-zero row. |
| Decoder.RoundedMassOnAxis | gcms.py:75-77 | Every rounded mass of the file lies on the mass axis, so scattering at `mass - mass_min` stays in the row. |
| Decoder.BinMeanSingle | gcms.py:94-100 | A rounded mass that occurs once in a scan keeps its intensity as the group mean. |
| Decoder.BinAbsent | gcms.py:94-100 | A rounded mass that does not occur forms an empty group, so its column keeps the zero of the fresh row. |
| Decoder.BinMeanPair | gcms.py:94-100 | Two peaks rounding to the same mass give `(a + b) / 2` in that column, not `a + b`. |
| Decoder.RowLookup | gcms.py:91-103 | In scan `i`'s row, the column of a rounded mass that is unique in the scan holds that peak's intensity. |
| Decoder.DenseLookup | gcms.py:91-103 | The same on the decoded axis: column `round(m) - mass_min` of scan `i` holds the intensity of the scan's only peak with rounded mass `round(m)`. |
| Numeric.RoundHalfEvenNearest | gcms.py:75-76 | `np.round` lands within 1/2 of its argument and sends exact halves to the even neighbour. |
| Numeric.RoundHalfEvenMonotone | gcms.py:75-76 | Rounding is monotone, so it preserves the minimum and maximum of the masses. |
| Numeric.MaxOf | gcms.py:76 | `max()` bounds every entry and is one of them. |
| Numeric.MinOf | gcms.py:75 | `min()` is below every entry and is one of them. |
| Numeric.DivideByPositive | gcms.py:127 | Dividing by a positive maximum maps the maximum to 1, keeps non-negative values non-negative, and keeps values at most the maximum at most 1. |
| Text.SplitAtFirst | gcms.py:163 | `split(':')` of a line returns the text before its first colon, then the fields of the remainder. |
| Text.SplitNone | gcms.py:163 | A line without a colon splits into a single field, so its second field does not exist. |
| Text.StripAfterBlank | gcms.py:164 | `strip()` removes the blank after the colon from a value without surrounding whitespace. |
| Text.WordsOfPair | gcms.py:153 | `split()` of `"m x"` gives the two tokens `m` and `x` when neither holds whitespace. |
| Text.WordsBlank | gcms.py:150-153 | A byte string of byte whitespace has no tokens. |
| Text.ParseIntDigits | gcms.py:119 | `int()` of a decimal numeral is its value. |
| Text.ParseFloatDigits | gcms.py:120 | `float()` of a decimal numeral is its value. |
| Text.LastThree | gcms.py:219 | `name[-3:]` has three characters, or the whole name when it is shorter. |
| PeakPattern.SpaceEnd | gcms.py:171 | `\s*` is greedy: it takes the longest run of whitespace. |
| PeakPattern.DigitEnd | gcms.py:171 | `\d*` is greedy: it takes the longest run of digits. |
| PeakPattern.MatchAt | gcms.py:171 | A match spans at least `()` and both groups are digit strings. |
| PeakPattern.MatchAtRuns | gcms.py:171 | An opening parenthesis, the greedy runs, then a closing parenthesis match with the two digit runs as groups. |
| PeakPattern.MatchPair | gcms.py:171 | `(m x)` with numerals `m`, `x` matches with groups `m` and `x`. |
| PeakPattern.FindAllDigits | gcms.py:195 | Every pair `findall` returns is two digit strings, so decimals and signs are never matched. |
| PeakPattern.FindAllSkip | gcms.py:195 | Text without `(` adds no pairs. |
| PeakPattern.FindAllPair | gcms.py:195 | `findall` on `(m x)` followed by more text returns `(m, x)` and then the pairs of the rest, in order. |
| Reference.RefExtend | gcms.py:118-127 | The scatter loop over an array computes exactly the reference spectrum. |
| Reference.RefSpectrumDefinedIff | gcms.py:121-127 | The spectrum is a number (not NaN) iff some kept peak puts a positive value on the axis. |
| Reference.RefSpectrumEntries | gcms.py:121-127 | The vector is as long as the mass axis. Each entry is the peak placed there (or 0) divided by the largest placed intensity. The first and last entries are 0. |
| Reference.RefSpectrumPeakIsOne | gcms.py:127 | Every entry is at most 1, and some entry is exactly 1. |
| Reference.RefSpectrumDistinct | gcms.py:122-127 | With distinct masses, each kept peak appears as its intensity over the largest kept intensity, and that largest intensity is one of the kept peaks. |
| Reference.RefSpectrumUnitRange | gcms.py:127 | Non-negative intensities give entries between 0 and 1. |
| Reference.EndPeaksDropped | gcms.py:121 | Peaks exactly at the first or last axis mass are discarded, so a spectrum of only such peaks is NaN. |
| Reference.PlacedInterior | gcms.py:121-122 | Only indices strictly inside the axis receive a peak. |
| Reference.PlacedLast | gcms.py:126 | For repeated masses the fancy assignment keeps the last intensity. |
| Reference.PlacedSomeIff | gcms.py:121-126 | An index receives a value iff some kept peak's mass maps to it. |
| Reference.NormalizePeak | gcms.py:127 | Dividing by a positive maximum gives entries at most 1, one of them exactly 1. |
| Reference.Scattered | gcms.py:125 | The scattered vector is as long as the mass axis. |
| RefLibrary.ParseMasses | gcms.py:119 | On success each token converts with `int()` to the value at its position. On failure the error names a token that `int()` rejects. |
| RefLibrary.ParseIntensities | gcms.py:120 | The same for `float()`. |
| RefLibrary.TxtPeaks | gcms.py:149-155 | The `.txt` peak loop only consumes lines from the shared iterator. |
| RefLibrary.MslPeaks | gcms.py:194-200 | The `.msl` peak loop only consumes lines from the shared iterator. |
| RefLibrary.PeakBlock | gcms.py:146-155 | Reading a peak block consumes the marker line and then only following lines. |
| RefLibrary.ReadRecord | gcms.py:141-167 | Reading a record only consumes lines. |
| RefLibrary.ReadFile | gcms.py:129-139 | Reading a file only consumes lines. |
| RefLibrary.ReadRecordComment | gcms.py:143 | A `#` line inside a record is skipped and changes nothing. |
| RefLibrary.ReadRecordPeaks | gcms.py:146-161 | A `NUM PEAK` line reads a peak block. It stores the block's spectrum, or fails with the block's or the spectrum's error. The record ends if the block ended at a blank line. |
| RefLibrary.ReadRecordPeaksBroken | gcms.py:149-155 | A peak block that fails leaves the library as it was and ends reading with that error. |
| RefLibrary.ReadRecordPeaksRejected | gcms.py:157 | A block whose tokens do not convert, or whose spectrum is NaN, stores nothing and ends reading with that error. |
| RefLibrary.ReadRecordPeaksStored | gcms.py:157-160 | A good block appends exactly its spectrum to `ref_array`. Reading stops after a blank line and goes on otherwise. |
| RefLibrary.ReadRecordMeta | gcms.py:162-164 | A `key: value` line sets `ref_meta[name][key]` to the stripped second field. A line without a colon fails. |
| RefLibrary.ReadRecordBlank | gcms.py:144-167 | A line other than a comment or a marker that is whitespace-only for its format (byte whitespace in `.txt`, unicode whitespace in `.msl`) ends the record and changes nothing. |
| RefLibrary.NearestScan | gcms.py:226 | `argmin` of the time distance returns the first scan whose time is nearest `bkg_time`. |
| RefLibrary.BuildWithoutBackground | gcms.py:214-225 | With `bkg` false, `ref_build` is the reader alone: nothing is appended. |
| RefLibrary.ReadRecordRows | gcms.py:157-158 | Every spectrum a record appends spans the mass axis, so a library of axis-wide rows stays one. |
| RefLibrary.ReadFileRows | gcms.py:129-139 | Reading a whole file keeps every row of `ref_array` as wide as the mass axis. |
| RefLibrary.LibraryRows | gcms.py:214-223 | The library read by `ref_build` from an empty start has only axis-wide rows, whatever the extension. |
| RefLibrary.Build | gcms.py:214-232 | Every row `ref_build` leaves in `ref_array`, the normalised background row included, has one entry per mass of the axis, so `ref_array` is a matrix. |
| RefLibrary.BuildBackgroundLast | gcms.py:225-230 | With `bkg`, exactly one entry is appended, last in both lists: `Background`, the row of the nearest scan divided by its maximum. Its largest value is 1 when the row has a positive entry. |
| RefRender.ReadFileRoundTrip | gcms.py:129-211 | A file written from well-formed records, in either format, reads back without error. It gives every record's name in `ref_files`, its spectrum in `ref_array` and its metadata in `ref_meta`. |
| RefRender.ReadFileRecord | gcms.py:132-139 | A written record adds its name, its spectrum and its metadata, and reading goes on after it. |
| RefRender.RecordRead | gcms.py:141-167 | The lines after a record's `NAME` line give back its metadata and spectrum and end at its blank line. |
| RefRender.NameLineRead | gcms.py:133-136 | The written `NAME` line is recognised and yields the record's name. |
| RefRender.ExpectedNames | gcms.py:137 | Each record adds exactly one `ref_files` entry, its name, in file order. |
| RefRender.ExpectedSpectra | gcms.py:157-158 | Each record adds exactly one spectrum after those already stored. |
| RefRender.MetaAfterLastWins | gcms.py:164 | For a repeated key the last metadata line wins. Keys never written keep their value. |
| RefRender.EntriesRead | gcms.py:162-164 | Written header lines are read back as those metadata updates, in order, with comments skipped. |
| RefRender.EntryLineRead | gcms.py:162-164 | One header line is read back as its metadata update, or skipped if it is a comment. |
| RefRender.LinesValid | gcms.py:133 | A written record consists of non-empty lines. |
| RefRender.FileLinesValid | gcms.py:133 | A written file consists of non-empty lines. |
| RefRender.BlockRead | gcms.py:146-160 | A written peak block stores exactly the record's spectrum and ends the record. |
| RefRender.PeakBlockRead | gcms.py:146-161 | A written peak block, in either format, yields the record's tokens in order and ends at the blank line. |
| RefRender.TxtBlockRead | gcms.py:146-155 | The same for `.txt`. |
| RefRender.MslBlockRead | gcms.py:191-200 | The same for `.msl`, starting at the marker line. |
| RefRender.MarkerHasNoGroup | gcms.py:195 | The written marker line holds no peak groups. |
| RefRender.TxtPeaksRead | gcms.py:149-155 | Written `.txt` peak lines give their masses and intensities in order and stop at the blank line. |
| RefRender.TxtPeaksStep | gcms.py:149-155 | One `.txt` peak line adds its two tokens. |
| RefRender.TxtLineRead | gcms.py:153-155 | A written `.txt` line splits into its mass and its intensity. |
| RefRender.MslPeaksRead | gcms.py:194-200 | Written `.msl` peak lines give the marker line's groups and then every group of every line in order, stopping at the blank line. |
| RefRender.MslPeaksStep | gcms.py:194-200 | One `.msl` line adds all of its groups. |
| RefRender.FindAllMslRow | gcms.py:195 | `findall` on a written `.msl` line returns all of its pairs, in order. |
| RefRender.FindAllPeak | gcms.py:195 | One written group followed by a blank gives its pair, then the pairs of the rest. |
| RefRender.PairsAppend | gcms.py:196-198 | The pairs of several lines are their pairs concatenated. |
| RefRender.ParseMassesNumerals | gcms.py:119 | Written masses convert to their values. |
| RefRender.ParseIntensitiesNumerals | gcms.py:120 | Written intensities convert to their values. |
| RefRender.SpectrumOfNumerals | gcms.py:157 | Written tokens give the record's spectrum. |
| RefRender.NumeralNoWhite | gcms.py:153 | A numeral holds no whitespace, so `split()` keeps it whole. |
| Integration.Window | gcms.py:246 | The mask has one entry per scan. |
| Integration.SelectUpTo | gcms.py:248 | Every selected row is a row whose mask entry holds. |
| Integration.SelectLength | gcms.py:248 | The chunk has one row per scan inside the window. |
| Integration.SelectAll | gcms.py:248 | A mask that holds everywhere selects every row, in order. |
| Integration.FitMs | gcms.py:249 | `fit_ms` has one matrix per selected scan, one row per reference, and each row as long as that reference. |
| Integration.AxisTotals | gcms.py:251 | Summing over axes 0 and 2 gives one total per reference. |
| Integration.Integrate | gcms.py:245-251 | The integral has one value per reference. |
| Integration.ColumnTotalIsWeighted | gcms.py:249-251 | Summing `fit_ms` over scans and masses gives `Σ_s fits[s][r] · Σ_k ref_array[r][k]`. |
| Integration.SelectWeighted | gcms.py:246-251 | The weighted sum over the chunk is the sum over the scans inside the window. |
| Integration.IntegralIsArea | gcms.py:246-251 | `integral[r]` is `Σ` over scans with `start < t < stop` of `fits[s][r] · Σ_k ref_array[r][k]`. |
| Integration.AreaEmptyUpTo | gcms.py:246 | When no scan time lies strictly between `start` and `stop`, no scan contributes. |
| Integration.IntegralOfEmptyWindow | gcms.py:246-251 | A window with no scan time strictly between `start` and `stop` integrates to all zeros. |
| Integration.IntegralOfInvertedWindow | gcms.py:246-251 | In particular a window with `stop <= start` integrates to all zeros. |
| Integration.AreaMonotoneUpTo | gcms.py:246-251 | For non-negative fits and spectra, a wider window never gives less. |
| Integration.IntegralMonotone | gcms.py:246-251 | For non-negative fits and spectra, widening the window never decreases any entry. |
| Integration.AreaSplitUpTo | gcms.py:246-251 | A window split at a time no scan has is the sum of its two parts. |
| Integration.IntegralSplit | gcms.py:246-251 | The integral over a window split at a time no scan has is the sum of the two integrals. |
| Gcms.TxtPeakLines | gcms.py:149-155 | The `.txt` peak loop collects exactly the tokens of the peak block specification and stops where it does. |
| Gcms.MslPeakLines | gcms.py:192-200 | The `.msl` `while not space` loop, with its inner `for val in vals`, collects exactly the groups of the specification and stops where it does, including the end-of-file failure. |
| Gcms.CollectPairs | gcms.py:196-198 | The `for val in vals` loop appends the first group of every pair to the masses and the second to the intensities, in the order `findall` returned them. |
| Gcms.PeakLines | gcms.py:146-155 | The peak block of either format is read as its specification says. |
| Gcms.AIAFile.constructor | gcms.py:61-115 | Construction decodes a run of at least one scan (as `Decode`) and starts with an empty library and no fits. |
| Gcms.AIAFile.RefExtend | gcms.py:118-127 | The result is the spectrum of the tokens on the run's own mass axis, or the conversion or NaN error. |
| Gcms.AIAFile.ReadPeaks | gcms.py:146-161 | Reading the peak block updates `ref_array` as the record specification says and tells whether the record ends. |
| Gcms.AIAFile.ReadMeta | gcms.py:162-164 | A metadata line updates `ref_meta` as the record specification says. |
| Gcms.AIAFile.ReadLine | gcms.py:142-167 | One step of the record loop matches one step of the record specification. |
| Gcms.AIAFile.ReadRef | gcms.py:141-167 | The record loop leaves the library and the cursor as the record specification does, and changes nothing else. |
| Gcms.AIAFile.ReadFileLine | gcms.py:132-139 | One step of the file loop matches one step of the file specification. |
| Gcms.AIAFile.ReadRefFile | gcms.py:129-139 | The file loop leaves the library as the file specification does, and changes nothing else. |
| Gcms.AIAFile.LoadLibrary | gcms.py:215-223 | The old library is discarded, and the format is chosen by the lower-cased last three characters of the name. |
| Gcms.AIAFile.AddBackground | gcms.py:225-230 | The normalised row of the nearest scan is appended as `Background` and `_bkg_idx` is set, or nothing changes on an error. |
| Gcms.AIAFile.RefBuild | gcms.py:214-232 | The library and `_bkg_idx` end as `ref_build`'s specification says, and the run, the fits and the last integration are unchanged. Every row of `ref_array` spans the mass axis, as `nnls` needs. |
| Gcms.AIAFile.Nnls | gcms.py:235-242 | On a non-empty library, `fits` has one row per scan, in scan order: the solver's answer for `ref_array.T` and that scan's intensities. With a solver returning one coefficient per reference, the fits have the shape `integrate` needs. |
| Gcms.AIAFile.Integrate | gcms.py:245-260 | The `last_int_*` fields and `integral` record the call's mask, chunk, products and integral. The result is the integral. `fits` and the library are unchanged. |

## Left out

- `get_args` (gcms.py:12-57) configures the command line only.
- The netCDF reads (gcms.py:67-69, 71, 74, 79, 109) are not modelled: the four arrays are the constructor's parameters.
- The constructor requires as many scan times as point counts, which the netCDF format guarantees.
- Gcms.AIAFile.constructor: it sets `ref_array`, `ref_files`, `ref_meta`, `_bkg_idx`, `fits`, the `last_int_*` attributes and `integral` to empty values, while Python creates them only in `ref_build`, `nnls` and `integrate`. So the reading methods and `AddBackground`, called on an object no `ref_build` has prepared, run on the empty library in the model, where Python raises `AttributeError`.
- The `filename` attribute is not stored.
- Opening reference files and decoding them (gcms.py:130, 174) are not modelled: a file is its sequence of lines, and the `encoding` parameter is dropped.
- RefLibrary.ReadFile: `.txt` lines are assumed to be ASCII. A `.txt` line is a byte string, and `'NAME' in line` (gcms.py:134) and `line.split(':')` (gcms.py:135) decode it with the ASCII codec because the literals are unicode. On a non-comment line with a byte of 0x80 or more, Python raises `UnicodeDecodeError`, while the model reads the line as text. `Gcms.AIAFile.ReadFileLine` and `Gcms.AIAFile.ReadRefFile`, which follow this function, share the gap.
- RefLibrary.ReadRecord: the same ASCII assumption holds inside a `.txt` record. `'NUM PEAK' in line` (gcms.py:146) raises `UnicodeDecodeError` on any non-comment record line with a byte of 0x80 or more, including a header line, before it is split at gcms.py:163. Peak lines are split as bytes and are not affected. `Gcms.AIAFile.ReadRef` and `Gcms.AIAFile.ReadLine` share the gap.
- RefLibrary.ReadRecordMeta: like `Gcms.AIAFile.ReadMeta`, it stores a non-ASCII `.txt` metadata line, where Python has already raised at gcms.py:146.
- `spo.nnls` (gcms.py:239) is a foreign numerical optimiser. It is the function parameter `solve` of `Nnls`.
- Floating point is not modelled: intensities and times are `real`. NumPy's `np.round` on raw masses is the explicit function `RoundHalfEven`.
- The float-to-int cast of `np.int` is the identity on rounded values.
- `pandas.groupby(...).mean()` is modelled as the mean of each group (`BinMean`) and not through a data frame.
- NaN results are not carried as values: a zero maximum in `_ref_extend` or in the background row (gcms.py:127, 227) becomes the error `NaNSpectrum`, which ends reading. Python instead appends the NaN row (gcms.py:158, 202, 228) and goes on, so the model's library differs from Python's after such a record.
- A negative maximum in the background row is divided as written.
- The final `np.array(self.ref_array)` (gcms.py:232) is the identity on the sequence of rows. When `ref_build` fails, Python never reaches that line, `ref_array` stays a list, and `nnls` then fails on `.T` (gcms.py:239). The model does not record whether the conversion happened, so `Gcms.AIAFile.Nnls` also accepts the partial library left by a failed `ref_build`; it does require a non-empty library, which `np.array([])` (one-dimensional, rejected by `spo.nnls`) and an object without any `ref_build` (no `ref_array` attribute, `AttributeError` at gcms.py:239) both lack.
- Decoder.Decode: it (and `Gcms.AIAFile.constructor`) requires at least one scan, at least one mass value and `Σ point_count` no larger than the mass and intensity arrays. Python fails on the first two: `sum(axis=1)` of the one-dimensional `np.array([])` of an empty run (gcms.py:115) and `mass_cdf.min()` of an empty array (gcms.py:75) raise, and these exceptions are not modelled as outcomes. The silent truncation of over-long slices (gcms.py:91-92) is not modelled either; a well-formed AIA file's `point_count` sums to the arrays' length.
- RefLibrary.ParseMasses: `np.array(masses, dtype=int)` (gcms.py:119) rejects numerals beyond the 64-bit range, while `ParseInt` is unbounded, so such masses are accepted by the model.
- `Gcms.AIAFile.Nnls` requires every reference row to span the mass axis. `Gcms.AIAFile.RefBuild` ensures this (through `RefLibrary.Build`), so the ragged array that a mismatch would give in Python never arises.
- `Gcms.AIAFile.Integrate` requires `fits` to have one row per scan and one coefficient per reference, as `nnls` produces with a solver of that shape.
- Python's `float()` is modelled for decimal text with an optional sign, fraction and exponent. `inf`, `nan`, underscores and other spellings are rejected.
- `SpectrumOf` has a branch for different numbers of masses and intensities. The readers always collect both in pairs, so it never fires.
- Lines read by the parsers are assumed non-empty (every line from a file iterator ends in its newline), so `line[0]` never fails on an empty string.
- data.py, calibration.py and docs/ are driver scripts around the class and are not part of this model.
