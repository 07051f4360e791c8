/**
  The Python 2 string operations the reference parsers rely on:
  `isspace`, the `in` substring test, `split(':')`, `split()`, `strip()`,
  ASCII `lower`, and the `int(...)`/`float(...)` conversions that NumPy
  applies when it turns token lists into numeric arrays. Lines of a `.txt`
  library are byte strings, so their `isspace()` and `split()` know only
  byte whitespace; lines of a `.msl` library are decoded, and so is every
  piece of `split(':')` (the separator is a unicode literal), so their
  `isspace()` and `strip()` use unicode whitespace.
 */
module Text {
  import opened Wrappers

  /**
    Whitespace as Python 2's `str.isspace` and `str.split()` see it on a
    byte string (C locale): the blank and the five controls tab to
    carriage return.
   */
  predicate IsByteWhite(c: char)
  {
    c == ' ' || ('\t' <= c <= '\r')
  }

  /**
    Whitespace as Python 2.7's `unicode.isspace` and `unicode.strip()`
    see it: the byte whitespace, the four separators 0x1C to 0x1F, next
    line, no-break space and the Unicode space and line/paragraph
    separators.
   */
  predicate IsWhite(c: char)
  {
    IsByteWhite(c) || ('\U{1C}' <= c <= '\U{1F}') || c == '\U{85}' || c == '\U{A0}'
    || c == '\U{1680}' || c == '\U{180E}' || ('\U{2000}' <= c <= '\U{200A}')
    || c == '\U{2028}' || c == '\U{2029}' || c == '\U{202F}' || c == '\U{205F}' || c == '\U{3000}'
  }

  /** `s.isspace()` on a byte string: non-empty and byte whitespace only. */
  predicate IsByteSpace(s: string)
  {
    |s| > 0 && forall k :: 0 <= k < |s| ==> IsByteWhite(s[k])
  }

  /** `s.isspace()` on a unicode string: non-empty and whitespace only. */
  predicate IsSpace(s: string)
  {
    |s| > 0 && forall k :: 0 <= k < |s| ==> IsWhite(s[k])
  }

  /** `pat in s`. */
  predicate Contains(s: string, pat: string)
    decreases |s|
  {
    |pat| <= |s| && (s[..|pat|] == pat || Contains(s[1..], pat))
  }

  /** `s.split(sep)`: the pieces between separators; never empty. */
  function Split(s: string, sep: char): (r: seq<string>)
    ensures |r| >= 1
    decreases |s|
  {
    if |s| == 0 then [[]]
    else
      var tail := Split(s[1..], sep);
      if s[0] == sep then [[]] + tail else [[s[0]] + tail[0]] + tail[1..]
  }

  /** End of the run of non-byte-whitespace characters that starts at `i`. */
  function TokenEnd(s: string, i: nat): (j: nat)
    requires i <= |s|
    ensures i <= j <= |s|
    ensures i < |s| && !IsByteWhite(s[i]) ==> i < j
    ensures forall k :: i <= k < j ==> !IsByteWhite(s[k])
    ensures j < |s| ==> IsByteWhite(s[j])
    decreases |s| - i
  {
    if i < |s| && !IsByteWhite(s[i]) then TokenEnd(s, i + 1) else i
  }

  /** `s.split()` on a byte string: the maximal pieces free of byte whitespace, in order. */
  function Words(s: string): (r: seq<string>)
    decreases |s|
  {
    if |s| == 0 then []
    else if IsByteWhite(s[0]) then Words(s[1..])
    else
      var j := TokenEnd(s, 0);
      [s[..j]] + Words(s[j..])
  }

  function LStrip(s: string): string
    decreases |s|
  {
    if |s| > 0 && IsWhite(s[0]) then LStrip(s[1..]) else s
  }

  function RStrip(s: string): string
    decreases |s|
  {
    if |s| > 0 && IsWhite(s[|s| - 1]) then RStrip(s[..|s| - 1]) else s
  }

  /** `s.strip()`. */
  function Strip(s: string): string
  {
    RStrip(LStrip(s))
  }

  predicate NoWhite(s: string)
  {
    forall k :: 0 <= k < |s| ==> !IsWhite(s[k])
  }

  /** A string that `strip()` leaves alone: empty, or no whitespace at either end. */
  predicate IsStripped(s: string)
  {
    |s| == 0 || (!IsWhite(s[0]) && !IsWhite(s[|s| - 1]))
  }

  function LowerChar(c: char): char
  {
    if 'A' <= c <= 'Z' then (c as int - 'A' as int + 'a' as int) as char else c
  }

  function Lower(s: string): (r: string)
    ensures |r| == |s|
  {
    seq(|s|, k requires 0 <= k < |s| => LowerChar(s[k]))
  }

  /** `s[-3:]`: the last three characters, or all of a shorter string. */
  function LastThree(s: string): (r: string)
    ensures |r| == if |s| >= 3 then 3 else |s|
    ensures r == s[|s| - |r|..]
  {
    if |s| >= 3 then s[|s| - 3..] else s
  }

  // ---------------------------------------------------------------------
  // Numeric conversions.

  predicate IsDigit(c: char)
  {
    '0' <= c <= '9'
  }

  predicate AllDigits(s: string)
  {
    forall k :: 0 <= k < |s| ==> IsDigit(s[k])
  }

  /** Decimal value of a digit string. */
  function DigitsValue(s: string): nat
    requires AllDigits(s)
    decreases |s|
  {
    if |s| == 0 then 0
    else DigitsValue(s[..|s| - 1]) * 10 + (s[|s| - 1] as int - '0' as int)
  }

  /** `int(s)` for a token without surrounding whitespace: optional sign, then digits. */
  function ParseInt(s: string): Option<int>
  {
    if |s| > 0 && (s[0] == '+' || s[0] == '-') then
      if |s| > 1 && AllDigits(s[1..]) then
        Some(if s[0] == '-' then -(DigitsValue(s[1..]) as int) else DigitsValue(s[1..]))
      else None
    else if |s| > 0 && AllDigits(s) then Some(DigitsValue(s))
    else None
  }

  function Pow10(n: nat): (p: real)
    ensures p >= 1.0
  {
    if n == 0 then 1.0 else 10.0 * Pow10(n - 1)
  }

  /** Index of the first `c` in `s`, or `|s|` when there is none. */
  function IndexOf(s: string, c: char): (i: nat)
    ensures i <= |s|
    ensures forall k :: 0 <= k < i ==> s[k] != c
    ensures i < |s| ==> s[i] == c
    decreases |s|
  {
    if |s| == 0 then 0 else if s[0] == c then 0 else 1 + IndexOf(s[1..], c)
  }

  /** An unsigned decimal mantissa `ddd`, `ddd.`, `.ddd` or `ddd.ddd`. */
  function ParseMantissa(s: string): Option<real>
  {
    var d := IndexOf(s, '.');
    var whole := s[..d];
    var frac := if d < |s| then s[d + 1..] else [];
    if AllDigits(whole) && AllDigits(frac) && |whole| + |frac| > 0 then
      Some(DigitsValue(whole) as real + DigitsValue(frac) as real / Pow10(|frac|))
    else None
  }

  /** `m * 10**x`. */
  function Scale(m: real, x: int): real
  {
    if x >= 0 then m * Pow10(x) else m / Pow10(-x)
  }

  /** Where the exponent marker `e` or `E` of a float token starts, or `|s|`. */
  function ExponentStart(s: string): (e: nat)
    ensures e <= |s|
  {
    var lower, upper := IndexOf(s, 'e'), IndexOf(s, 'E');
    if lower < upper then lower else upper
  }

  /** `float(s)` of an unsigned token: mantissa, optional exponent. */
  function ParseUnsignedFloat(s: string): Option<real>
  {
    var e := ExponentStart(s);
    var exponent := if e < |s| then ParseInt(s[e + 1..]) else Some(0);
    if ParseMantissa(s[..e]).Some? && exponent.Some? then
      Some(Scale(ParseMantissa(s[..e]).value, exponent.value))
    else None
  }

  /** `float(s)` for a finite decimal token: sign, mantissa, optional exponent. */
  function ParseFloat(s: string): Option<real>
  {
    if |s| > 0 && (s[0] == '+' || s[0] == '-') then
      match ParseUnsignedFloat(s[1..])
      case Some(v) => Some(if s[0] == '-' then -v else v)
      case None => None
    else ParseUnsignedFloat(s)
  }

  // ---------------------------------------------------------------------
  // Facts about these operations.

  /** A digit string reads back, through `int(...)`, as its decimal value. */
  lemma ParseIntDigits(s: string)
    requires |s| > 0 && AllDigits(s)
    ensures ParseInt(s) == Some(DigitsValue(s) as int)
  {
  }

  /** A digit string reads back, through `float(...)`, as the same whole number. */
  lemma ParseFloatDigits(s: string)
    requires |s| > 0 && AllDigits(s)
    ensures ParseFloat(s) == Some(DigitsValue(s) as real)
  {
    assert !(s[0] == '+' || s[0] == '-');
    NoExponentInDigits(s);
    MantissaOfDigits(s);
    assert s[..|s|] == s;
    assert Scale(DigitsValue(s) as real, 0) == DigitsValue(s) as real;
  }

  lemma NoExponentInDigits(s: string)
    requires AllDigits(s)
    ensures ExponentStart(s) == |s|
  {
    assert forall k :: 0 <= k < |s| ==> s[k] != 'e' && s[k] != 'E';
  }

  lemma MantissaOfDigits(s: string)
    requires |s| > 0 && AllDigits(s)
    ensures ParseMantissa(s) == Some(DigitsValue(s) as real)
  {
    assert forall k :: 0 <= k < |s| ==> s[k] != '.';
    assert s[..|s|] == s;
  }

  /** A string contains each of its prefixes. */
  lemma ContainsPrefix(s: string, pat: string)
    requires |pat| <= |s| && s[..|pat|] == pat
    ensures Contains(s, pat)
  {
  }

  /** `(k + ":" + rest).split(':')` starts with `k` when `k` has no colon. */
  lemma {:induction false} SplitAtFirst(k: string, rest: string, sep: char)
    requires forall i :: 0 <= i < |k| ==> k[i] != sep
    ensures Split(k + [sep] + rest, sep) == [k] + Split(rest, sep)
    decreases |k|
  {
    if |k| == 0 {
      assert k + [sep] + rest == [sep] + rest;
      assert ([sep] + rest)[1..] == rest;
    } else {
      SplitAtFirst(k[1..], rest, sep);
      assert (k + [sep] + rest)[1..] == k[1..] + [sep] + rest;
      assert [k[0]] + k[1..] == k;
    }
  }

  /** A string without the separator splits into itself alone. */
  lemma {:induction false} SplitNone(s: string, sep: char)
    requires forall i :: 0 <= i < |s| ==> s[i] != sep
    ensures Split(s, sep) == [s]
    decreases |s|
  {
    if |s| > 0 {
      SplitNone(s[1..], sep);
      assert [s[0]] + s[1..] == s;
    }
  }

  /** Stripping a stripped value behind one leading blank gives the value back. */
  lemma {:induction false} StripAfterBlank(v: string)
    requires IsStripped(v)
    ensures Strip(" " + v) == v
  {
    assert (" " + v)[1..] == v;
    assert LStrip(" " + v) == LStrip(v);
    assert LStrip(v) == v;
    if |v| > 0 {
      assert RStrip(v) == v;
    }
  }

  /** The token run of a whitespace-free word ends at the word's end. */
  lemma {:induction false} TokenEndOfWord(w: string, rest: string, i: nat)
    requires i <= |w| && NoWhite(w) && (|rest| == 0 || IsByteWhite(rest[0]))
    ensures TokenEnd(w + rest, i) == |w|
    decreases |w| - i
  {
    if i < |w| {
      assert (w + rest)[i] == w[i];
      TokenEndOfWord(w, rest, i + 1);
    } else if |rest| > 0 {
      assert (w + rest)[i] == rest[0];
    }
  }

  /** `(w + rest).split()` is `w` followed by the words of `rest` when `rest` starts blank. */
  lemma WordsCons(w: string, rest: string)
    requires |w| > 0 && NoWhite(w) && (|rest| == 0 || IsByteWhite(rest[0]))
    ensures Words(w + rest) == [w] + Words(rest)
  {
    TokenEndOfWord(w, rest, 0);
    assert (w + rest)[..|w|] == w;
    assert (w + rest)[|w|..] == rest;
  }

  /** A string of byte whitespace has no words. */
  lemma {:induction false} WordsBlank(s: string)
    requires forall k :: 0 <= k < |s| ==> IsByteWhite(s[k])
    ensures Words(s) == []
    decreases |s|
  {
    if |s| > 0 {
      WordsBlank(s[1..]);
    }
  }

  /** `(m + " " + x).split() == [m, x]` for whitespace-free, non-empty `m`, `x`. */
  lemma WordsOfPair(m: string, x: string)
    requires |m| > 0 && NoWhite(m) && |x| > 0 && NoWhite(x)
    ensures Words(m + " " + x) == [m, x]
  {
    WordsCons(m, " " + x);
    assert m + " " + x == m + (" " + x);
    assert (" " + x)[1..] == x;
    WordsCons(x, []);
    assert x + [] == x;
  }
}
