/**
  The `.msl` peak pattern `\(\s*(\d*)\s*(\d*)\)` and `re.findall` over it.
  Under Python 2's `re` without the UNICODE flag, `\s` is `[ \t\n\r\f\v]` and
  `\d` is `[0-9]`. Because the whitespace class, the digit class and the
  closing parenthesis are pairwise disjoint, the greedy reading below is the
  only way the pattern can match at a position: a match exists exactly when
  the character after the greedy runs is `)`.
 */
module PeakPattern {
  import opened Wrappers
  import opened Text

  /** `\s` of the pattern. */
  predicate IsPatternSpace(c: char)
  {
    c == ' ' || ('\t' <= c <= '\r')
  }

  /** End of the `\s*` run starting at `i`. */
  function SpaceEnd(s: string, i: nat): (j: nat)
    requires i <= |s|
    ensures i <= j <= |s|
    ensures forall k :: i <= k < j ==> IsPatternSpace(s[k])
    ensures j < |s| ==> !IsPatternSpace(s[j])
    decreases |s| - i
  {
    if i < |s| && IsPatternSpace(s[i]) then SpaceEnd(s, i + 1) else i
  }

  /** End of the `\d*` run starting at `i`. */
  function DigitEnd(s: string, i: nat): (j: nat)
    requires i <= |s|
    ensures i <= j <= |s|
    ensures forall k :: i <= k < j ==> IsDigit(s[k])
    ensures j < |s| ==> !IsDigit(s[j])
    decreases |s| - i
  {
    if i < |s| && IsDigit(s[i]) then DigitEnd(s, i + 1) else i
  }

  /** One match: the two groups and the length of text it covers. */
  datatype Hit = Hit(mass: string, intensity: string, length: nat)

  /** Match the pattern at the start of `s`. */
  function MatchAt(s: string): (h: Option<Hit>)
    ensures h.Some? ==> 2 <= h.value.length <= |s|
    ensures h.Some? ==> AllDigits(h.value.mass) && AllDigits(h.value.intensity)
  {
    if |s| == 0 || s[0] != '(' then None
    else
      var a := SpaceEnd(s, 1);
      var b := DigitEnd(s, a);
      var c := SpaceEnd(s, b);
      var d := DigitEnd(s, c);
      if d < |s| && s[d] == ')' then Some(Hit(s[a..b], s[c..d], d + 1)) else None
  }

  /** `re.findall` with two groups: the (mass, intensity) pairs of all matches, left to right. */
  function FindAll(s: string): (pairs: seq<(string, string)>)
    decreases |s|
  {
    match MatchAt(s)
    case Some(h) => [(h.mass, h.intensity)] + FindAll(s[h.length..])
    case None => if |s| == 0 then [] else FindAll(s[1..])
  }

  /** Every group `findall` returns is a digit string: a decimal such as `1.5` is never captured. */
  lemma {:induction false} FindAllDigits(s: string)
    ensures forall k :: 0 <= k < |FindAll(s)| ==> AllDigits(FindAll(s)[k].0) && AllDigits(FindAll(s)[k].1)
    decreases |s|
  {
    match MatchAt(s)
    case Some(h) => FindAllDigits(s[h.length..]);
    case None => if |s| > 0 { FindAllDigits(s[1..]); }
  }

  /** Text without an opening parenthesis contributes no match. */
  lemma {:induction false} FindAllSkip(p: string, s: string)
    requires forall k :: 0 <= k < |p| ==> p[k] != '('
    ensures FindAll(p + s) == FindAll(s)
    decreases |p|
  {
    if |p| > 0 {
      assert (p + s)[0] == p[0];
      assert (p + s)[1..] == p[1..] + s;
      FindAllSkip(p[1..], s);
    } else {
      assert p + s == s;
    }
  }

  /** The text `(m x)` that renders one peak. */
  function PairText(m: string, x: string): string
  {
    "(" + m + " " + x + ")"
  }

  /** Where the parts of `(m x)` sit in the text. */
  lemma PairLayout(m: string, x: string, rest: string)
    ensures var s, e := PairText(m, x) + rest, |m| + 2 + |x|;
            e < |s| && s[0] == '(' && s[1..|m| + 1] == m && s[|m| + 1] == ' '
            && s[|m| + 2..e] == x && s[e] == ')'
  {
    var s := PairText(m, x) + rest;
    assert s == "(" + m + " " + x + ")" + rest;
  }

  /** A match read off from where the four runs end. */
  lemma MatchAtRuns(s: string, a: nat, b: nat, c: nat, d: nat)
    requires |s| > 0 && s[0] == '('
    requires a == SpaceEnd(s, 1) && b == DigitEnd(s, a) && c == SpaceEnd(s, b) && d == DigitEnd(s, c)
    requires d < |s| && s[d] == ')'
    ensures MatchAt(s) == Some(Hit(s[a..b], s[c..d], d + 1))
  {
  }

  /** A rendered peak `(m x)` of two digit strings is matched as exactly that pair. */
  lemma MatchPair(m: string, x: string, rest: string)
    requires |m| > 0 && AllDigits(m) && AllDigits(x)
    ensures MatchAt(PairText(m, x) + rest) == Some(Hit(m, x, |m| + |x| + 3))
  {
    var s, e := PairText(m, x) + rest, |m| + 2 + |x|;
    PairLayout(m, x, rest);
    assert forall k :: 1 <= k < |m| + 1 ==> s[k] == s[1..|m| + 1][k - 1];
    assert forall k :: |m| + 2 <= k < e ==> s[k] == s[|m| + 2..e][k - |m| - 2];
    assert SpaceEnd(s, 1) == 1 by {
      assert IsDigit(s[1]);
    }
    DigitEndRun(s, 1, |m| + 1);
    assert SpaceEnd(s, |m| + 1) == |m| + 2 by {
      assert !IsPatternSpace(s[|m| + 2]) by {
        if x == [] { assert s[|m| + 2] == ')'; } else { assert IsDigit(s[|m| + 2]); }
      }
    }
    DigitEndRun(s, |m| + 2, e);
    MatchAtRuns(s, 1, |m| + 1, |m| + 2, e);
  }

  /** `DigitEnd` stops exactly at the end of a maximal digit run. */
  lemma {:induction false} DigitEndRun(s: string, i: nat, j: nat)
    requires i <= j < |s|
    requires forall k :: i <= k < j ==> IsDigit(s[k])
    requires !IsDigit(s[j])
    ensures DigitEnd(s, i) == j
    decreases j - i
  {
    if i < j {
      DigitEndRun(s, i + 1, j);
    }
  }

  /** `findall` on a rendered peak followed by more text yields that peak, then the rest's. */
  lemma FindAllPair(m: string, x: string, rest: string)
    requires |m| > 0 && AllDigits(m) && AllDigits(x)
    ensures FindAll(PairText(m, x) + rest) == [(m, x)] + FindAll(rest)
  {
    MatchPair(m, x, rest);
    var s := PairText(m, x) + rest;
    assert |PairText(m, x)| == |m| + |x| + 3;
    assert s[|m| + |x| + 3..] == rest;
  }
}
