/** The parts of Python's `str` and `re` that the narrative engine relies on:
    whitespace (`str.strip()`, `\s`), ASCII digits (`\d`, `int()`),
    upper-casing, zero-padded decimals (`f"{n:03d}"`), substring tests
    (`x in s`) and `str.splitlines()`. */
module Text {

  /** The characters `str.isspace()` accepts: what `strip()` removes and `\s` matches. */
  predicate IsSpace(c: char) {
    ('\t' <= c <= '\r') || ('\U{1c}' <= c <= '\U{1f}') || c == ' ' || c == '\U{85}' || c == '\U{a0}'
    || c == '\U{1680}' || ('\U{2000}' <= c <= '\U{200a}') || c == '\U{2028}' || c == '\U{2029}'
    || c == '\U{202f}' || c == '\U{205f}' || c == '\U{3000}'
  }

  predicate AllSpace(s: string) {
    forall i :: 0 <= i < |s| ==> IsSpace(s[i])
  }

  /** Neither starts nor ends with whitespace: the shape of every `strip()` result. */
  predicate Trimmed(s: string) {
    s == [] || (!IsSpace(s[0]) && !IsSpace(s[|s| - 1]))
  }

  /** The first index at or after `i` whose character is not whitespace. */
  function SkipSpace(s: string, i: nat): (k: nat)
    requires i <= |s|
    ensures i <= k <= |s|
    ensures forall j :: i <= j < k ==> IsSpace(s[j])
    ensures k < |s| ==> !IsSpace(s[k])
    decreases |s| - i
  {
    if i < |s| && IsSpace(s[i]) then SkipSpace(s, i + 1) else i
  }

  /** Where `s[lo..hi]` ends once its trailing whitespace is dropped. */
  function TrimEnd(s: string, lo: nat, hi: nat): (k: nat)
    requires lo <= hi <= |s|
    ensures lo <= k <= hi
    ensures forall j :: k <= j < hi ==> IsSpace(s[j])
    ensures k > lo ==> !IsSpace(s[k - 1])
    decreases hi
  {
    if lo < hi && IsSpace(s[hi - 1]) then TrimEnd(s, lo, hi - 1) else hi
  }

  /** Python's `s.strip()`. */
  function Strip(s: string): (r: string)
    ensures |r| <= |s|
    ensures Trimmed(r)
  {
    var lo := SkipSpace(s, 0);
    s[lo..TrimEnd(s, lo, |s|)]
  }

  /** `Strip(s)` is a slice of `s` with nothing but whitespace around it. */
  lemma StripBounds(s: string) returns (lo: nat, hi: nat)
    ensures lo <= hi <= |s| && Strip(s) == s[lo..hi]
    ensures AllSpace(s[..lo]) && AllSpace(s[hi..])
  {
    lo := SkipSpace(s, 0);
    hi := TrimEnd(s, lo, |s|);
  }

  /** Whitespace around a trimmed core is exactly what `strip()` removes. */
  lemma {:induction false} StripUnique(a: string, r: string, b: string)
    requires AllSpace(a) && AllSpace(b) && Trimmed(r)
    ensures Strip(a + r + b) == r
  {
    var s := a + r + b;
    var lo := SkipSpace(s, 0);
    var hi := TrimEnd(s, lo, |s|);
    if r == [] {
      assert AllSpace(s) by {
        forall j | 0 <= j < |s| ensures IsSpace(s[j]) {
          if j < |a| { assert s[j] == a[j]; } else { assert s[j] == b[j - |a|]; }
        }
      }
      assert lo == |s|;
    } else {
      assert s[|a|] == r[0];
      forall j | 0 <= j < |a| ensures IsSpace(s[j]) { assert s[j] == a[j]; }
      assert lo == |a|;
      assert s[|a| + |r| - 1] == r[|r| - 1];
      forall j | |a| + |r| <= j < |s| ensures IsSpace(s[j]) { assert s[j] == b[j - |a| - |r|]; }
      assert hi == |a| + |r|;
      assert s[lo..hi] == r;
    }
  }

  lemma StripTrimmed(r: string)
    requires Trimmed(r)
    ensures Strip(r) == r
  {
    StripUnique([], r, []);
    assert [] + r + [] == r;
  }

  /** `strip()` is idempotent. */
  lemma StripIdempotent(s: string)
    ensures Strip(Strip(s)) == Strip(s)
  {
    StripTrimmed(Strip(s));
  }

  /** Python's `str.upper()` restricted to ASCII letters. */
  function UpperChar(c: char): (u: char)
    ensures IsSpace(u) <==> IsSpace(c)
    ensures 'a' <= c <= 'z' ==> u as int == c as int - 32
    ensures !('a' <= c <= 'z') ==> u == c
  {
    if 'a' <= c <= 'z' then (c as int - 32) as char else c
  }

  function Upper(s: string): (r: string)
    ensures |r| == |s|
    ensures forall i :: 0 <= i < |s| ==> r[i] == UpperChar(s[i])
  {
    if s == [] then [] else [UpperChar(s[0])] + Upper(s[1..])
  }

  /** Upper-casing does not move whitespace, so it commutes with `strip()`. */
  lemma UpperKeepsTrimmed(s: string)
    requires Trimmed(s)
    ensures Trimmed(Upper(s))
  {
  }

  lemma UpperConcat(a: string, b: string)
    ensures Upper(a + b) == Upper(a) + Upper(b)
  {
    assert forall i :: 0 <= i < |a + b| ==> Upper(a + b)[i] == (Upper(a) + Upper(b))[i];
  }

  lemma UpperKeepsAllSpace(s: string)
    requires AllSpace(s)
    ensures AllSpace(Upper(s))
  {
  }

  lemma UpperIdempotent(s: string)
    ensures Upper(Upper(s)) == Upper(s)
  {
  }

  /** An ASCII digit: what `\d` matches once restricted to ASCII. */
  predicate IsDigit(c: char) {
    '0' <= c <= '9'
  }

  predicate AllDigits(s: string) {
    forall i :: 0 <= i < |s| ==> IsDigit(s[i])
  }

  /** Python's `int()` of a run of ASCII digits. */
  function DigitsValue(d: string): nat
    requires AllDigits(d)
    decreases |d|
  {
    if d == [] then 0 else DigitsValue(d[..|d| - 1]) * 10 + (d[|d| - 1] as int - '0' as int)
  }

  /** `s[i..j]` is the first maximal run of digits in `s`. */
  predicate FirstDigitRun(s: string, i: int, j: int) {
    0 <= i < j <= |s|
    && (forall k :: 0 <= k < i ==> !IsDigit(s[k]))
    && (forall k :: i <= k < j ==> IsDigit(s[k]))
    && (j == |s| || !IsDigit(s[j]))
  }

  /** The end of the run of digits that starts at `i`. */
  function DigitRunEnd(s: string, i: nat): (k: nat)
    requires i <= |s|
    ensures i <= k <= |s|
    ensures forall j :: i <= j < k ==> IsDigit(s[j])
    ensures k < |s| ==> !IsDigit(s[k])
    decreases |s| - i
  {
    if i < |s| && IsDigit(s[i]) then DigitRunEnd(s, i + 1) else i
  }

  /** The first index at or after `i` that holds a digit, or `|s|`. */
  function FirstDigit(s: string, i: nat): (k: nat)
    requires i <= |s|
    ensures i <= k <= |s|
    ensures forall j :: i <= j < k ==> !IsDigit(s[j])
    ensures k < |s| ==> IsDigit(s[k])
    decreases |s| - i
  {
    if i < |s| && !IsDigit(s[i]) then FirstDigit(s, i + 1) else i
  }

  /** Leading zeros do not change the value `int()` reads. */
  lemma {:induction false} LeadingZero(d: string)
    requires AllDigits(d)
    ensures AllDigits("0" + d) && DigitsValue("0" + d) == DigitsValue(d)
    decreases |d|
  {
    if d != [] {
      var z := "0" + d;
      assert z[..|z| - 1] == "0" + d[..|d| - 1];
      LeadingZero(d[..|d| - 1]);
    }
  }

  /** Two digit strings of one length with one value are the same string. */
  lemma {:induction false} DigitsValueInjective(a: string, b: string)
    requires AllDigits(a) && AllDigits(b) && |a| == |b|
    requires DigitsValue(a) == DigitsValue(b)
    ensures a == b
    decreases |a|
  {
    if a != [] {
      var n := |a| - 1;
      DigitsValueInjective(a[..n], b[..n]);
      assert a == a[..n] + [a[n]] && b == b[..n] + [b[n]];
    }
  }

  function DigitChar(d: nat): (c: char)
    requires d < 10
    ensures IsDigit(c) && c as int - '0' as int == d
  {
    ('0' as int + d) as char
  }

  /** Python's `str(n)` for a natural number: the shortest decimal spelling. */
  function Decimal(n: nat): (r: string)
    ensures |r| >= 1 && AllDigits(r) && DigitsValue(r) == n
    ensures n > 0 ==> r[0] != '0'
    ensures n < 10 ==> |r| == 1
    ensures n < 100 ==> |r| <= 2
    ensures n < 1000 ==> |r| <= 3
    ensures n >= 10 ==> |r| >= 2
    ensures n >= 100 ==> |r| >= 3
    ensures n >= 1000 ==> |r| >= 4
    decreases n
  {
    if n < 10 then [DigitChar(n)] else
      var r := Decimal(n / 10) + [DigitChar(n % 10)];
      assert r[..|r| - 1] == Decimal(n / 10);
      r
  }

  /** Zeros added in front of `s` until it is `width` characters long. */
  function ZeroPad(s: string, width: nat): (r: string)
    ensures |r| == if |s| >= width then |s| else width
    ensures AllDigits(s) ==> AllDigits(r) && DigitsValue(r) == DigitsValue(s)
    decreases if |s| >= width then 0 else width - |s|
  {
    if |s| >= width then s else
      if AllDigits(s) then LeadingZero(s); ZeroPad("0" + s, width)
      else ZeroPad("0" + s, width)
  }

  /** Python's `f"{n:03d}"`: at least three digits, the sign counted in the width. */
  function Format03(n: int): string {
    if n >= 0 then ZeroPad(Decimal(n), 3) else "-" + ZeroPad(Decimal(-n), 2)
  }

  /** Every chapter number from 0 to 999 is spelled with exactly three digits
      that read back as the number. */
  lemma Format03Digits(n: int)
    requires 0 <= n <= 999
    ensures |Format03(n)| == 3 && AllDigits(Format03(n)) && DigitsValue(Format03(n)) == n
  {
  }

  /** `sub` occurs in `s` starting at index `i`. */
  predicate OccursAt(sub: string, s: string, i: nat) {
    i + |sub| <= |s| && s[i..i + |sub|] == sub
  }

  /** Python's `sub in s` (the empty string is in every string). */
  predicate IsSubstring(sub: string, s: string) {
    exists i :: 0 <= i <= |s| && OccursAt(sub, s, i)
  }

  /** The line boundaries `str.splitlines()` recognises (`\r\n` counts as one). */
  predicate IsLineBreak(c: char) {
    c == '\n' || c == '\r' || c == '\U{b}' || c == '\U{c}' || ('\U{1c}' <= c <= '\U{1e}')
    || c == '\U{85}' || c == '\U{2028}' || c == '\U{2029}'
  }

  /** The first line boundary at or after `i`, or `|s|`. */
  function LineBreakAt(s: string, i: nat): (k: nat)
    requires i <= |s|
    ensures i <= k <= |s|
    ensures forall j :: i <= j < k ==> !IsLineBreak(s[j])
    ensures k < |s| ==> IsLineBreak(s[k])
    decreases |s| - i
  {
    if i < |s| && !IsLineBreak(s[i]) then LineBreakAt(s, i + 1) else i
  }

  /** Where the line after the boundary at `j` starts: past `\r\n` as one. */
  function NextLineStart(s: string, j: nat): (next: nat)
    requires j < |s|
    ensures j < next <= |s|
  {
    if s[j] == '\r' && j + 1 < |s| && s[j + 1] == '\n' then j + 2 else j + 1
  }

  /** `str.splitlines()`: the text cut at every line boundary, with no final
      empty line for a trailing boundary, and `\r\n` ending a single line. */
  function SplitLines(s: string): (lines: seq<string>)
    ensures forall k, j :: 0 <= k < |lines| && 0 <= j < |lines[k]| ==> !IsLineBreak(lines[k][j])
    ensures s == [] <==> lines == []
    decreases |s|
  {
    if s == [] then [] else
      var j := LineBreakAt(s, 0);
      if j == |s| then [s]
      else [s[..j]] + SplitLines(s[NextLineStart(s, j)..])
  }

  /** A text without any boundary is one line. */
  lemma SplitLinesOneLine(a: string)
    requires a != [] && forall j :: 0 <= j < |a| ==> !IsLineBreak(a[j])
    ensures SplitLines(a) == [a]
  {
    assert LineBreakAt(a, 0) == |a|;
  }

  /** A boundary ends the line before it, and the rest is split on its own;
      a `\r` directly followed by `\n` is the `\r\n` case below. */
  lemma SplitLinesAtBreak(a: string, b: char, c: string)
    requires forall j :: 0 <= j < |a| ==> !IsLineBreak(a[j])
    requires IsLineBreak(b) && !(b == '\r' && c != [] && c[0] == '\n')
    ensures SplitLines(a + [b] + c) == [a] + SplitLines(c)
  {
    var s := a + [b] + c;
    assert s[|a|] == b;
    assert forall j :: 0 <= j < |a| ==> s[j] == a[j];
    assert LineBreakAt(s, 0) == |a|;
    assert s[..|a|] == a;
    if |a| + 1 < |s| { assert s[|a| + 1] == c[0]; }
    assert NextLineStart(s, |a|) == |a| + 1;
    assert s[|a| + 1..] == c;
  }

  /** `\r\n` is a single boundary: it ends one line, not two. */
  lemma SplitLinesAtCrLf(a: string, c: string)
    requires forall j :: 0 <= j < |a| ==> !IsLineBreak(a[j])
    ensures SplitLines(a + "\r\n" + c) == [a] + SplitLines(c)
  {
    var s := a + "\r\n" + c;
    assert s[|a|] == '\r' && s[|a| + 1] == '\n';
    assert forall j :: 0 <= j < |a| ==> s[j] == a[j];
    assert LineBreakAt(s, 0) == |a|;
    assert s[..|a|] == a;
    assert NextLineStart(s, |a|) == |a| + 2;
    assert s[|a| + 2..] == c;
  }
}
