/**
  Reference files written from records, and the library the readers must
  build from them. A record written in either format is read back as the
  name, the metadata and the spectrum it was written with: this is the
  inverse relationship between the file layout the readers expect and what
  they collect.
 */
module RefRender {
  import opened Wrappers
  import opened Numeric
  import opened Text
  import opened PeakPattern
  import opened Reference
  import opened RefLibrary

  /** A peak as a reference file writes it: the decimal digits of its mass and of its intensity. */
  datatype Peak = Peak(mass: string, intensity: string)

  /** A line of a record's header: a `#` comment or a `key: value` metadata line. */
  datatype Entry = Comment(text: string) | Meta(key: string, value: string)

  /** One compound: its name, its header lines, its peak lines (one peak per `.txt` line). */
  datatype Record = Record(name: string, entries: seq<Entry>, rows: seq<seq<Peak>>)

  const Marker: string := "NUM PEAKS"
  const Blank: string := "\n"

  function NameLine(name: string): string
  {
    "NAME: " + name
  }

  function EntryLine(e: Entry): string
  {
    match e
    case Comment(t) => "#" + t
    case Meta(k, v) => k + ": " + v
  }

  function EntryLines(es: seq<Entry>): (r: seq<string>)
    ensures |r| == |es|
  {
    if |es| == 0 then [] else [EntryLine(es[0])] + EntryLines(es[1..])
  }

  /** `.msl` peak groups on one line, each followed by a space. */
  function MslRow(row: seq<Peak>): string
  {
    if |row| == 0 then [] else PairText(row[0].mass, row[0].intensity) + " " + MslRow(row[1..])
  }

  function RowLine(fmt: Format, row: seq<Peak>): string
  {
    match fmt
    case Txt => if |row| == 0 then [] else row[0].mass + " " + row[0].intensity
    case Msl => MslRow(row)
  }

  function RowLines(fmt: Format, rows: seq<seq<Peak>>): (r: seq<string>)
    ensures |r| == |rows|
  {
    if |rows| == 0 then [] else [RowLine(fmt, rows[0])] + RowLines(fmt, rows[1..])
  }

  /** The marker line, the peak lines and the blank line that ends the record. */
  function BlockLines(fmt: Format, rows: seq<seq<Peak>>): seq<string>
  {
    [Marker] + RowLines(fmt, rows) + [Blank]
  }

  function RecordLines(fmt: Format, r: Record): seq<string>
  {
    [NameLine(r.name)] + EntryLines(r.entries) + BlockLines(fmt, r.rows)
  }

  function FileLines(fmt: Format, recs: seq<Record>): seq<string>
  {
    if |recs| == 0 then [] else RecordLines(fmt, recs[0]) + FileLines(fmt, recs[1..])
  }

  // ---------------------------------------------------------------------
  // What a record means.

  function Pairs(row: seq<Peak>): (r: seq<(string, string)>)
    ensures |r| == |row| && forall k :: 0 <= k < |row| ==> r[k] == (row[k].mass, row[k].intensity)
  {
    seq(|row|, k requires 0 <= k < |row| => (row[k].mass, row[k].intensity))
  }

  /** The peaks of all lines, in file order. */
  function AllPairs(rows: seq<seq<Peak>>): seq<(string, string)>
  {
    if |rows| == 0 then [] else Pairs(rows[0]) + AllPairs(rows[1..])
  }

  predicate Numeral(s: string)
  {
    |s| > 0 && AllDigits(s)
  }

  predicate PeakOk(p: Peak)
  {
    Numeral(p.mass) && Numeral(p.intensity)
  }

  predicate PairsOk(ps: seq<(string, string)>)
  {
    forall k :: 0 <= k < |ps| ==> Numeral(ps[k].0) && Numeral(ps[k].1)
  }

  /** Peak lines: numerals; one peak per line in `.txt`, at least one in `.msl`. */
  predicate RowOk(fmt: Format, row: seq<Peak>)
  {
    (forall k :: 0 <= k < |row| ==> PeakOk(row[k])) && (if fmt == Txt then |row| == 1 else |row| >= 1)
  }

  predicate NoColon(s: string)
  {
    forall k :: 0 <= k < |s| ==> s[k] != ':'
  }

  /** A name or value that survives `split(':')[1].strip()` unchanged. */
  predicate FieldOk(s: string)
  {
    NoColon(s) && IsStripped(s)
  }

  /** A metadata line that is not taken for a comment, a peak marker or a blank line. */
  predicate EntryOk(e: Entry)
  {
    match e
    case Comment(_) => true
    case Meta(k, v) => |k| > 0 && k[0] != '#' && NoColon(k) && FieldOk(v) && !Contains(EntryLine(e), "NUM PEAK")
  }

  function MassValues(ps: seq<(string, string)>): (r: seq<int>)
    requires PairsOk(ps)
    ensures |r| == |ps|
  {
    seq(|ps|, k requires 0 <= k < |ps| => DigitsValue(ps[k].0) as int)
  }

  function IntensityValues(ps: seq<(string, string)>): (r: seq<real>)
    requires PairsOk(ps)
    ensures |r| == |ps|
  {
    seq(|ps|, k requires 0 <= k < |ps| => DigitsValue(ps[k].1) as real)
  }

  predicate RecordOk(fmt: Format, r: Record, lo: int, hi: int)
    requires lo <= hi
  {
    FieldOk(r.name) && (forall i :: 0 <= i < |r.entries| ==> EntryOk(r.entries[i]))
    && (forall i :: 0 <= i < |r.rows| ==> RowOk(fmt, r.rows[i]))
    && PairsOk(AllPairs(r.rows))
    && RefSpectrum(MassValues(AllPairs(r.rows)), IntensityValues(AllPairs(r.rows)), lo, hi).Some?
  }

  /** The spectrum a well-formed record stands for. */
  function RecordSpectrum(fmt: Format, r: Record, lo: int, hi: int): seq<real>
    requires lo <= hi && RecordOk(fmt, r, lo, hi)
  {
    RefSpectrum(MassValues(AllPairs(r.rows)), IntensityValues(AllPairs(r.rows)), lo, hi).value
  }

  function MetaStep(m: map<string, string>, e: Entry): map<string, string>
  {
    match e
    case Comment(_) => m
    case Meta(k, v) => m[k := v]
  }

  /** The metadata map after the header lines `es`, applied in order. */
  function MetaAfter(m: map<string, string>, es: seq<Entry>): map<string, string>
    decreases |es|
  {
    if |es| == 0 then m else MetaAfter(MetaStep(m, es[0]), es[1..])
  }

  /** The value of the last metadata line of `es` with key `key`. */
  function LastMeta(es: seq<Entry>, key: string): Option<string>
  {
    if |es| == 0 then None
    else match es[|es| - 1]
      case Meta(k, v) => if k == key then Some(v) else LastMeta(es[..|es| - 1], key)
      case Comment(_) => LastMeta(es[..|es| - 1], key)
  }

  /** The library a reader must hold after the records `recs`, starting from `lib`. */
  function Expected(fmt: Format, recs: seq<Record>, lo: int, hi: int, lib: Library): Library
    requires lo <= hi && forall i :: 0 <= i < |recs| ==> RecordOk(fmt, recs[i], lo, hi)
  {
    if |recs| == 0 then lib
    else
      var r := recs[0];
      Expected(fmt, recs[1..], lo, hi,
               Library(lib.refArray + [RecordSpectrum(fmt, r, lo, hi)], lib.refFiles + [r.name],
                       lib.refMeta[r.name := MetaAfter(map[], r.entries)]))
  }

  // ---------------------------------------------------------------------
  // Properties of the meaning.

  /** The names of the records, in order. */
  function Names(recs: seq<Record>): (r: seq<string>)
    ensures |r| == |recs| && forall k :: 0 <= k < |recs| ==> r[k] == recs[k].name
    decreases |recs|
  {
    if |recs| == 0 then [] else [recs[0].name] + Names(recs[1..])
  }

  /** Each record adds exactly one `ref_files` entry, its name, in file order. */
  lemma {:induction false} ExpectedNames(fmt: Format, recs: seq<Record>, lo: int, hi: int, lib: Library)
    requires lo <= hi && forall i :: 0 <= i < |recs| ==> RecordOk(fmt, recs[i], lo, hi)
    ensures Expected(fmt, recs, lo, hi, lib).refFiles == lib.refFiles + Names(recs)
    decreases |recs|
  {
    if |recs| > 0 {
      var r := recs[0];
      var lib' := Library(lib.refArray + [RecordSpectrum(fmt, r, lo, hi)], lib.refFiles + [r.name],
                          lib.refMeta[r.name := MetaAfter(map[], r.entries)]);
      ExpectedNames(fmt, recs[1..], lo, hi, lib');
    }
  }

  /** Each record adds exactly one spectrum, after those the library already held. */
  lemma {:induction false} ExpectedSpectra(fmt: Format, recs: seq<Record>, lo: int, hi: int, lib: Library)
    requires lo <= hi && forall i :: 0 <= i < |recs| ==> RecordOk(fmt, recs[i], lo, hi)
    ensures var e := Expected(fmt, recs, lo, hi, lib).refArray;
      |e| == |lib.refArray| + |recs| && e[..|lib.refArray|] == lib.refArray
    decreases |recs|
  {
    if |recs| > 0 {
      var r := recs[0];
      var lib' := Library(lib.refArray + [RecordSpectrum(fmt, r, lo, hi)], lib.refFiles + [r.name],
                          lib.refMeta[r.name := MetaAfter(map[], r.entries)]);
      ExpectedSpectra(fmt, recs[1..], lo, hi, lib');
      var e := Expected(fmt, recs, lo, hi, lib).refArray;
      assert e[..|lib.refArray|] == e[..|lib'.refArray|][..|lib.refArray|];
    }
  }

  lemma {:induction false} MetaAfterSnoc(m: map<string, string>, es: seq<Entry>, e: Entry)
    ensures MetaAfter(m, es + [e]) == MetaStep(MetaAfter(m, es), e)
    decreases |es|
  {
    if |es| == 0 {
      assert (es + [e])[1..] == [];
    } else {
      assert (es + [e])[1..] == es[1..] + [e];
      MetaAfterSnoc(MetaStep(m, es[0]), es[1..], e);
    }
  }

  /** Repeated keys: the last metadata line wins, and keys never written keep their old value. */
  lemma {:induction false} MetaAfterLastWins(m: map<string, string>, es: seq<Entry>, key: string)
    ensures LastMeta(es, key).Some? ==> key in MetaAfter(m, es) && MetaAfter(m, es)[key] == LastMeta(es, key).value
    ensures LastMeta(es, key).None? ==> (key in MetaAfter(m, es) <==> key in m)
    ensures LastMeta(es, key).None? && key in m ==> MetaAfter(m, es)[key] == m[key]
    decreases |es|
  {
    if |es| > 0 {
      var init := es[..|es| - 1];
      assert es == init + [es[|es| - 1]];
      MetaAfterSnoc(m, init, es[|es| - 1]);
      MetaAfterLastWins(m, init, key);
    }
  }

  lemma ConcatAssoc<T>(a: seq<T>, b: seq<T>, c: seq<T>)
    ensures (a + b) + c == a + (b + c)
  {
  }

  lemma ConsTail<T>(x: T, a: seq<T>)
    ensures ([x] + a)[0] == x && ([x] + a)[1..] == a
  {
  }

  lemma PairsAppend(a: seq<(string, string)>, b: seq<(string, string)>)
    ensures MassTokens(a + b) == MassTokens(a) + MassTokens(b)
    ensures IntensityTokens(a + b) == IntensityTokens(a) + IntensityTokens(b)
  {
  }

  lemma {:induction false} ParseMassesNumerals(ps: seq<(string, string)>)
    requires PairsOk(ps)
    ensures ParseMasses(MassTokens(ps)) == Success(MassValues(ps))
    decreases |ps|
  {
    if |ps| > 0 {
      ParseIntDigits(ps[0].0);
      assert MassTokens(ps)[1..] == MassTokens(ps[1..]);
      ParseMassesNumerals(ps[1..]);
      assert MassValues(ps) == [DigitsValue(ps[0].0) as int] + MassValues(ps[1..]);
    }
  }

  lemma {:induction false} ParseIntensitiesNumerals(ps: seq<(string, string)>)
    requires PairsOk(ps)
    ensures ParseIntensities(IntensityTokens(ps)) == Success(IntensityValues(ps))
    decreases |ps|
  {
    if |ps| > 0 {
      ParseFloatDigits(ps[0].1);
      assert IntensityTokens(ps)[1..] == IntensityTokens(ps[1..]);
      ParseIntensitiesNumerals(ps[1..]);
      assert IntensityValues(ps) == [DigitsValue(ps[0].1) as real] + IntensityValues(ps[1..]);
    }
  }

  /** Numeral tokens convert to the values they spell, so the parsed spectrum is the record's. */
  lemma SpectrumOfNumerals(fmt: Format, r: Record, lo: int, hi: int)
    requires lo <= hi && RecordOk(fmt, r, lo, hi)
    ensures SpectrumOf(MassTokens(AllPairs(r.rows)), IntensityTokens(AllPairs(r.rows)), lo, hi)
            == Success(RecordSpectrum(fmt, r, lo, hi))
  {
    ParseMassesNumerals(AllPairs(r.rows));
    ParseIntensitiesNumerals(AllPairs(r.rows));
  }

  // ---------------------------------------------------------------------
  // Reading written lines back.

  lemma NumeralNoWhite(s: string)
    requires Numeral(s)
    ensures NoWhite(s) && !IsSpace(s) && !IsByteSpace(s) && s[0] != '(' && s[0] != '#'
  {
    assert IsDigit(s[0]);
  }

  /** One rendered peak and its separating blank. */
  lemma FindAllPeak(m: string, x: string, tail: string)
    requires |m| > 0 && AllDigits(m) && AllDigits(x)
    ensures FindAll(PairText(m, x) + (" " + tail)) == [(m, x)] + FindAll(tail)
  {
    FindAllPair(m, x, " " + tail);
    FindAllSkip(" ", tail);
  }

  lemma MslRowCons(row: seq<Peak>, rest: string)
    requires |row| > 0
    ensures MslRow(row) + rest == PairText(row[0].mass, row[0].intensity) + (" " + (MslRow(row[1..]) + rest))
  {
  }

  lemma PairsCons(row: seq<Peak>)
    requires |row| > 0
    ensures Pairs(row) == [(row[0].mass, row[0].intensity)] + Pairs(row[1..])
  {
    assert Pairs(row)[1..] == Pairs(row[1..]);
  }

  lemma {:induction false} FindAllMslRow(row: seq<Peak>, rest: string)
    requires forall k :: 0 <= k < |row| ==> PeakOk(row[k])
    ensures FindAll(MslRow(row) + rest) == Pairs(row) + FindAll(rest)
    decreases |row|
  {
    if |row| > 0 {
      var m, x := row[0].mass, row[0].intensity;
      var tail := MslRow(row[1..]) + rest;
      MslRowCons(row, rest);
      assert PeakOk(row[0]);
      FindAllPeak(m, x, tail);
      FindAllMslRow(row[1..], rest);
      PairsCons(row);
      ConcatAssoc([(m, x)], Pairs(row[1..]), FindAll(rest));
    } else {
      assert MslRow(row) + rest == rest;
      assert Pairs(row) == [];
    }
  }

  lemma FindAllText(s: string)
    requires forall k :: 0 <= k < |s| ==> s[k] != '('
    ensures FindAll(s) == []
  {
    FindAllSkip(s, "");
    assert s + "" == s;
  }

  /** The written lines after the first `.txt` peak line. */
  lemma RowLinesCons(fmt: Format, rows: seq<seq<Peak>>, more: seq<string>)
    requires |rows| > 0
    ensures var ls := RowLines(fmt, rows) + [Blank] + more;
            ls[0] == RowLine(fmt, rows[0]) && ls[1..] == RowLines(fmt, rows[1..]) + [Blank] + more
  {
    var t := RowLines(fmt, rows[1..]);
    assert RowLines(fmt, rows) + [Blank] + more == [RowLine(fmt, rows[0])] + (t + [Blank] + more) by {
      ConcatAssoc([RowLine(fmt, rows[0])], t, [Blank]);
      ConcatAssoc([RowLine(fmt, rows[0])], t + [Blank], more);
    }
    ConsTail(RowLine(fmt, rows[0]), t + [Blank] + more);
  }

  /** A `.txt` peak line `m x` adds `m` and `x` to the token lists. */
  lemma TxtLineRead(p: Peak, ls: seq<string>, ms: seq<string>, xs: seq<string>)
    requires PeakOk(p) && |ls| > 0 && ls[0] == p.mass + " " + p.intensity
    ensures TxtPeaks(ls, ms, xs) == TxtPeaks(ls[1..], ms + [p.mass], xs + [p.intensity])
  {
    NumeralNoWhite(p.mass);
    NumeralNoWhite(p.intensity);
    assert !IsByteSpace(ls[0]) by { assert ls[0][0] == p.mass[0]; }
    WordsOfPair(p.mass, p.intensity);
    TxtPeaksStep(ls, ms, xs);
  }

  /** The tokens of the `.txt` rows: the first row's peak, then the others'. */
  lemma TxtTokensCons(rows: seq<seq<Peak>>, ms: seq<string>, xs: seq<string>)
    requires |rows| > 0 && |rows[0]| == 1
    ensures var p, tail := rows[0][0], AllPairs(rows[1..]);
            ms + MassTokens(AllPairs(rows)) == (ms + [p.mass]) + MassTokens(tail)
            && xs + IntensityTokens(AllPairs(rows)) == (xs + [p.intensity]) + IntensityTokens(tail)
  {
    var p, tail := rows[0][0], AllPairs(rows[1..]);
    assert AllPairs(rows) == [(p.mass, p.intensity)] + tail by {
      assert Pairs(rows[0]) == [(p.mass, p.intensity)];
    }
    PairsAppend([(p.mass, p.intensity)], tail);
    assert MassTokens([(p.mass, p.intensity)]) == [p.mass];
    assert IntensityTokens([(p.mass, p.intensity)]) == [p.intensity];
    ConcatAssoc(ms, [p.mass], MassTokens(tail));
    ConcatAssoc(xs, [p.intensity], IntensityTokens(tail));
  }

  lemma {:induction false} TxtPeaksRead(rows: seq<seq<Peak>>, more: seq<string>, ms: seq<string>, xs: seq<string>)
    requires forall i :: 0 <= i < |rows| ==> RowOk(Txt, rows[i])
    ensures TxtPeaks(RowLines(Txt, rows) + [Blank] + more, ms, xs)
            == Block(more, true, ms + MassTokens(AllPairs(rows)), xs + IntensityTokens(AllPairs(rows)), None)
    decreases |rows|
  {
    var ls := RowLines(Txt, rows) + [Blank] + more;
    if |rows| == 0 {
      assert ls == [Blank] + more;
      assert IsByteSpace(ls[0]);
      assert ls[1..] == more;
      assert ms + MassTokens(AllPairs(rows)) == ms;
      assert xs + IntensityTokens(AllPairs(rows)) == xs;
    } else {
      var p := rows[0][0];
      assert RowOk(Txt, rows[0]);
      RowLinesCons(Txt, rows, more);
      TxtLineRead(p, ls, ms, xs);
      TxtPeaksRead(rows[1..], more, ms + [p.mass], xs + [p.intensity]);
      TxtTokensCons(rows, ms, xs);
    }
  }

  /** One turn of the `.txt` peak loop on a line with two tokens. */
  lemma TxtPeaksStep(ls: seq<string>, ms: seq<string>, xs: seq<string>)
    requires |ls| > 0 && !IsByteSpace(ls[0]) && |Words(ls[0])| >= 2
    ensures TxtPeaks(ls, ms, xs) == TxtPeaks(ls[1..], ms + [Words(ls[0])[0]], xs + [Words(ls[0])[1]])
  {
  }

  /** One turn of the `.msl` peak loop on a line that is not blank. */
  lemma MslPeaksStep(line: string, ls: seq<string>, ms: seq<string>, xs: seq<string>)
    requires |ls| > 0 && !IsSpace(ls[0])
    ensures MslPeaks(line, ls, ms, xs)
            == MslPeaks(ls[0], ls[1..], ms + MassTokens(FindAll(line)), xs + IntensityTokens(FindAll(line)))
  {
  }

  lemma TokensAfterRow(ms: seq<string>, xs: seq<string>, fl: seq<(string, string)>, row: seq<Peak>, p: seq<(string, string)>, tail: seq<(string, string)>)
    requires p == Pairs(row) + tail
    ensures (ms + MassTokens(fl)) + MassTokens(Pairs(row) + tail) == ms + MassTokens(fl + p)
    ensures (xs + IntensityTokens(fl)) + IntensityTokens(Pairs(row) + tail) == xs + IntensityTokens(fl + p)
  {
    PairsAppend(fl, p);
  }

  lemma {:induction false} MslPeaksRead(line: string, rows: seq<seq<Peak>>, more: seq<string>, ms: seq<string>, xs: seq<string>)
    requires forall i :: 0 <= i < |rows| ==> RowOk(Msl, rows[i])
    ensures MslPeaks(line, RowLines(Msl, rows) + [Blank] + more, ms, xs)
            == Block(more, true, ms + MassTokens(FindAll(line) + AllPairs(rows)),
                     xs + IntensityTokens(FindAll(line) + AllPairs(rows)), None)
    decreases |rows|
  {
    var ls := RowLines(Msl, rows) + [Blank] + more;
    if |rows| == 0 {
      assert ls == [Blank] + more;
      assert IsSpace(ls[0]);
      assert ls[1..] == more;
      assert FindAll(line) + AllPairs(rows) == FindAll(line);
    } else {
      var row := rows[0];
      assert PeakOk(row[0]);
      var first := MslRow(row);
      assert ls[0] == first;
      assert !IsSpace(first) by { assert first[0] == '('; }
      assert ls[1..] == RowLines(Msl, rows[1..]) + [Blank] + more;
      var fl := FindAll(line);
      MslPeaksStep(line, ls, ms, xs);
      MslPeaksRead(first, rows[1..], more, ms + MassTokens(fl), xs + IntensityTokens(fl));
      FindAllMslRow(row, "");
      assert first + "" == first;
      assert FindAll("") == [];
      assert FindAll(first) == Pairs(row);
      TokensAfterRow(ms, xs, fl, row, AllPairs(rows), AllPairs(rows[1..]));
    }
  }

  lemma BlockLinesSplit(fmt: Format, rows: seq<seq<Peak>>, more: seq<string>)
    ensures BlockLines(fmt, rows) + more == [Marker] + (RowLines(fmt, rows) + [Blank] + more)
  {
    ConcatAssoc([Marker], RowLines(fmt, rows), [Blank]);
    ConcatAssoc([Marker], RowLines(fmt, rows) + [Blank], more);
  }

  /** The `.txt` peak lines read from an empty start. */
  lemma TxtBlockRead(rows: seq<seq<Peak>>, more: seq<string>)
    requires forall i :: 0 <= i < |rows| ==> RowOk(Txt, rows[i])
    ensures TxtPeaks(RowLines(Txt, rows) + [Blank] + more, [], [])
            == Block(more, true, MassTokens(AllPairs(rows)), IntensityTokens(AllPairs(rows)), None)
  {
    var ps := AllPairs(rows);
    assert [] + MassTokens(ps) == MassTokens(ps) && [] + IntensityTokens(ps) == IntensityTokens(ps);
    TxtPeaksRead(rows, more, [], []);
  }

  /** The peak block of a written record yields its peak tokens and stops after the blank line. */
  lemma PeakBlockRead(fmt: Format, rows: seq<seq<Peak>>, more: seq<string>)
    requires forall i :: 0 <= i < |rows| ==> RowOk(fmt, rows[i])
    ensures PeakBlock(fmt, BlockLines(fmt, rows) + more)
            == Block(more, true, MassTokens(AllPairs(rows)), IntensityTokens(AllPairs(rows)), None)
  {
    var tail := RowLines(fmt, rows) + [Blank] + more;
    BlockLinesSplit(fmt, rows, more);
    ConsTail(Marker, tail);
    match fmt
    case Txt =>
      TxtBlockRead(rows, more);
    case Msl =>
      var marker := ([Marker] + tail)[0];
      MarkerHasNoGroup();
      MslBlockRead(marker, rows, more);
  }

  lemma MarkerHasNoGroup()
    ensures forall k :: 0 <= k < |Marker| ==> Marker[k] != '('
  {
  }

  /** The `.msl` peak block after a marker line that holds no peak group. */
  lemma MslBlockRead(line: string, rows: seq<seq<Peak>>, more: seq<string>)
    requires forall i :: 0 <= i < |rows| ==> RowOk(Msl, rows[i])
    requires forall k :: 0 <= k < |line| ==> line[k] != '('
    ensures MslPeaks(line, RowLines(Msl, rows) + [Blank] + more, [], [])
            == Block(more, true, MassTokens(AllPairs(rows)), IntensityTokens(AllPairs(rows)), None)
  {
    FindAllText(line);
    var ps := AllPairs(rows);
    assert [] + MassTokens(ps) == MassTokens(ps) && [] + IntensityTokens(ps) == IntensityTokens(ps);
    assert FindAll(line) + ps == ps;
    MslPeaksRead(line, rows, more, [], []);
  }

  lemma {:induction false} EntryLinesValid(es: seq<Entry>)
    ensures ValidLines(EntryLines(es))
    decreases |es|
  {
    if |es| > 0 {
      EntryLinesValid(es[1..]);
      assert |EntryLine(es[0])| > 0;
      ValidConcat([EntryLine(es[0])], EntryLines(es[1..]));
    }
  }

  lemma {:induction false} RowLinesValid(fmt: Format, rows: seq<seq<Peak>>)
    requires forall i :: 0 <= i < |rows| ==> RowOk(fmt, rows[i])
    ensures ValidLines(RowLines(fmt, rows))
    decreases |rows|
  {
    if |rows| > 0 {
      RowLinesValid(fmt, rows[1..]);
      assert RowOk(fmt, rows[0]);
      assert |RowLine(fmt, rows[0])| > 0;
      ValidConcat([RowLine(fmt, rows[0])], RowLines(fmt, rows[1..]));
    }
  }

  lemma LinesValid(fmt: Format, r: Record, lo: int, hi: int)
    requires lo <= hi && RecordOk(fmt, r, lo, hi)
    ensures ValidLines(RecordLines(fmt, r))
  {
    EntryLinesValid(r.entries);
    RowLinesValid(fmt, r.rows);
    ValidConcat([Marker], RowLines(fmt, r.rows));
    ValidConcat([Marker] + RowLines(fmt, r.rows), [Blank]);
    ValidConcat([NameLine(r.name)], EntryLines(r.entries));
    ValidConcat([NameLine(r.name)] + EntryLines(r.entries), BlockLines(fmt, r.rows));
  }

  lemma FileLinesValid(fmt: Format, recs: seq<Record>, lo: int, hi: int)
    requires lo <= hi && forall i :: 0 <= i < |recs| ==> RecordOk(fmt, recs[i], lo, hi)
    ensures ValidLines(FileLines(fmt, recs))
    decreases |recs|
  {
    if |recs| > 0 {
      LinesValid(fmt, recs[0], lo, hi);
      FileLinesValid(fmt, recs[1..], lo, hi);
      ValidConcat(RecordLines(fmt, recs[0]), FileLines(fmt, recs[1..]));
    }
  }

  /** One header line: a comment is skipped, a metadata line sets one key of the record's metadata. */
  lemma EntryLineRead(fmt: Format, e: Entry, rest: seq<string>, name: string, lo: int, hi: int, lib: Library)
    requires lo <= hi && name in lib.refMeta && ValidLines(rest) && EntryOk(e)
    ensures ValidLines([EntryLine(e)] + rest)
    ensures ReadRecord(fmt, [EntryLine(e)] + rest, name, lo, hi, lib)
            == ReadRecord(fmt, rest, name, lo, hi, lib.(refMeta := lib.refMeta[name := MetaStep(lib.refMeta[name], e)]))
  {
    var line := EntryLine(e);
    ConsTail(line, rest);
    assert |line| > 0;
    assert ValidLines([line] + rest) by {
      forall i | 0 <= i < |[line] + rest|
        ensures |([line] + rest)[i]| > 0
      {
        if i > 0 {
          assert ([line] + rest)[i] == rest[i - 1];
        }
      }
    }
    match e
    case Comment(t) =>
      assert line[0] == '#';
      assert lib.refMeta[name := lib.refMeta[name]] == lib.refMeta;
      assert lib.(refMeta := lib.refMeta[name := MetaStep(lib.refMeta[name], e)]) == lib;
    case Meta(k, v) =>
      assert line[0] == k[0];
      assert line[|k|] == ':';
      assert !IsBlank(fmt, line) by { assert !IsWhite(line[|k|]); }
      assert line == k + [':'] + (" " + v);
      SplitAtFirst(k, " " + v, ':');
      SplitNone(" " + v, ':');
      StripAfterBlank(v);
  }

  /** Header lines only change the metadata of the record being read. */
  lemma {:induction false} EntriesRead(fmt: Format, es: seq<Entry>, after: seq<string>, name: string,
                                       lo: int, hi: int, lib: Library)
    requires lo <= hi && name in lib.refMeta && ValidLines(after)
    requires forall i :: 0 <= i < |es| ==> EntryOk(es[i])
    ensures ValidLines(EntryLines(es) + after)
    ensures ReadRecord(fmt, EntryLines(es) + after, name, lo, hi, lib)
            == ReadRecord(fmt, after, name, lo, hi, lib.(refMeta := lib.refMeta[name := MetaAfter(lib.refMeta[name], es)]))
    decreases |es|
  {
    if |es| == 0 {
      assert EntryLines(es) + after == after;
      assert lib.refMeta[name := lib.refMeta[name]] == lib.refMeta;
    } else {
      var e := es[0];
      var rest := EntryLines(es[1..]) + after;
      assert EntryLines(es) + after == [EntryLine(e)] + rest by {
        ConcatAssoc([EntryLine(e)], EntryLines(es[1..]), after);
      }
      var lib1 := lib.(refMeta := lib.refMeta[name := MetaStep(lib.refMeta[name], e)]);
      EntriesRead(fmt, es[1..], after, name, lo, hi, lib1);
      EntryLineRead(fmt, e, rest, name, lo, hi, lib);
      assert lib1.refMeta[name := MetaAfter(lib1.refMeta[name], es[1..])]
             == lib.refMeta[name := MetaAfter(lib.refMeta[name], es)];
    }
  }

  /** The marker line and what follows it add the record's spectrum and end the record. */
  lemma BlockRead(fmt: Format, r: Record, more: seq<string>, lo: int, hi: int, lib: Library)
    requires lo <= hi && RecordOk(fmt, r, lo, hi) && r.name in lib.refMeta && ValidLines(BlockLines(fmt, r.rows) + more)
    ensures ReadRecord(fmt, BlockLines(fmt, r.rows) + more, r.name, lo, hi, lib)
            == Parsed(more, lib.(refArray := lib.refArray + [RecordSpectrum(fmt, r, lo, hi)]), None)
  {
    var ls := BlockLines(fmt, r.rows) + more;
    assert ls[0] == Marker;
    ContainsPrefix(Marker, "NUM PEAK");
    PeakBlockRead(fmt, r.rows, more);
    SpectrumOfNumerals(fmt, r, lo, hi);
  }

  /** A whole written record: the name opens it, and the metadata and spectrum are stored under it. */
  lemma RecordRead(fmt: Format, r: Record, more: seq<string>, lo: int, hi: int, lib: Library)
    requires lo <= hi && RecordOk(fmt, r, lo, hi) && ValidLines(more)
    ensures ValidLines(RecordLines(fmt, r) + more)
    ensures ReadRecord(fmt, (RecordLines(fmt, r) + more)[1..], r.name, lo, hi,
                       lib.(refFiles := lib.refFiles + [r.name], refMeta := lib.refMeta[r.name := map[]]))
            == Parsed(more, Library(lib.refArray + [RecordSpectrum(fmt, r, lo, hi)], lib.refFiles + [r.name],
                                    lib.refMeta[r.name := MetaAfter(map[], r.entries)]), None)
  {
    LinesValid(fmt, r, lo, hi);
    var a := RecordLines(fmt, r);
    ValidConcat(a, more);
    var lib0 := lib.(refFiles := lib.refFiles + [r.name], refMeta := lib.refMeta[r.name := map[]]);
    var after := BlockLines(fmt, r.rows) + more;
    assert (a + more)[1..] == EntryLines(r.entries) + after by {
      ConcatAssoc([NameLine(r.name)] + EntryLines(r.entries), BlockLines(fmt, r.rows), more);
      ConcatAssoc([NameLine(r.name)], EntryLines(r.entries), after);
      ConsTail(NameLine(r.name), EntryLines(r.entries) + after);
    }
    assert ValidLines(after) by {
      RowLinesValid(fmt, r.rows);
      ValidConcat([Marker], RowLines(fmt, r.rows));
      ValidConcat([Marker] + RowLines(fmt, r.rows), [Blank]);
      ValidConcat(BlockLines(fmt, r.rows), more);
    }
    EntriesRead(fmt, r.entries, after, r.name, lo, hi, lib0);
    var lib1 := lib0.(refMeta := lib0.refMeta[r.name := MetaAfter(lib0.refMeta[r.name], r.entries)]);
    BlockRead(fmt, r, more, lo, hi, lib1);
    assert lib0.refMeta[r.name := MetaAfter(lib0.refMeta[r.name], r.entries)]
           == lib.refMeta[r.name := MetaAfter(map[], r.entries)];
  }

  /** The name line opens a record under the name it was written with. */
  lemma NameLineRead(name: string)
    requires FieldOk(name)
    ensures var line := NameLine(name);
            |line| > 0 && line[0] != '#' && Contains(line, "NAME")
            && |Split(line, ':')| >= 2 && Strip(Split(line, ':')[1]) == name
  {
    var line := NameLine(name);
    assert line[0] == 'N';
    ContainsPrefix(line, "NAME");
    assert line == "NAME" + [':'] + (" " + name);
    SplitAtFirst("NAME", " " + name, ':');
    SplitNone(" " + name, ':');
    StripAfterBlank(name);
  }

  /** Reading one written record and then whatever follows it. */
  lemma ReadFileRecord(fmt: Format, r: Record, more: seq<string>, lo: int, hi: int, lib: Library)
    requires lo <= hi && RecordOk(fmt, r, lo, hi) && ValidLines(more)
    ensures ValidLines(RecordLines(fmt, r) + more)
    ensures ReadFile(fmt, RecordLines(fmt, r) + more, lo, hi, lib)
            == ReadFile(fmt, more, lo, hi, Library(lib.refArray + [RecordSpectrum(fmt, r, lo, hi)], lib.refFiles + [r.name],
                                                   lib.refMeta[r.name := MetaAfter(map[], r.entries)]))
  {
    var ls := RecordLines(fmt, r) + more;
    assert ls[0] == NameLine(r.name);
    NameLineRead(r.name);
    RecordRead(fmt, r, more, lo, hi, lib);
  }

  /**
    Round trip: reading the lines written for well-formed records, in either
    format, consumes them all, raises nothing, and yields the library those
    records stand for.
   */
  lemma {:induction false} ReadFileRoundTrip(fmt: Format, recs: seq<Record>, lo: int, hi: int, lib: Library)
    requires lo <= hi && forall i :: 0 <= i < |recs| ==> RecordOk(fmt, recs[i], lo, hi)
    ensures ValidLines(FileLines(fmt, recs))
    ensures ReadFile(fmt, FileLines(fmt, recs), lo, hi, lib) == Parsed([], Expected(fmt, recs, lo, hi, lib), None)
    decreases |recs|
  {
    FileLinesValid(fmt, recs, lo, hi);
    if |recs| > 0 {
      var r := recs[0];
      var more := FileLines(fmt, recs[1..]);
      FileLinesValid(fmt, recs[1..], lo, hi);
      assert FileLines(fmt, recs) == RecordLines(fmt, r) + more;
      ReadFileRecord(fmt, r, more, lo, hi, lib);
      var lib2 := Library(lib.refArray + [RecordSpectrum(fmt, r, lo, hi)], lib.refFiles + [r.name],
                          lib.refMeta[r.name := MetaAfter(map[], r.entries)]);
      ReadFileRoundTrip(fmt, recs[1..], lo, hi, lib2);
    }
  }
}
