/** The three searching regular expressions of the narrative engine, each as a
    deterministic matcher at one position, and `re.finditer`'s left-to-right
    scan over a text.

    The patterns only ever use `\s*` in front of a token that is not
    whitespace, and `0*(\d+)` in front of a token that is not a digit, so
    backtracking never changes the outcome: every `\s*` takes the longest run
    of whitespace, `0*(\d+)` takes the whole run of digits, and `int()` of the
    group equals the value of that whole run (leading zeros do not count). */
module Matching {
  import opened Wrappers
  import opened Text

  /** `CHAPTER_HEADING_RE`, `ROLE_ACTION_ROW_RE` and `FORESHADOW_ID_RE`. */
  datatype Pattern = ChapterHeading | RoleActionRow | ForeshadowId

  /** A match: `match.start()`, `match.end()` and the number its digits spell. */
  datatype Match = Match(start: nat, end: nat, number: nat)

  /** What `\w` matches: ASCII letters, digits and `_`, Latin-1 letters, kana,
      CJK ideographs and full-width letters and digits. */
  predicate IsWordChar(c: char) {
    ('a' <= c <= 'z') || ('A' <= c <= 'Z') || IsDigit(c) || c == '_'
    || c == '\U{aa}' || c == '\U{b5}' || c == '\U{ba}'
    || ('\U{c0}' <= c <= '\U{ff}' && c != '\U{d7}' && c != '\U{f7}')
    || ('\U{3041}' <= c <= '\U{3096}') || ('\U{30a1}' <= c <= '\U{30fa}') || ('\U{30fc}' <= c <= '\U{30ff}')
    || ('\U{3400}' <= c <= '\U{4dbf}') || ('\U{4e00}' <= c <= '\U{9fff}')
    || ('\U{ff10}' <= c <= '\U{ff19}') || ('\U{ff21}' <= c <= '\U{ff3a}') || ('\U{ff41}' <= c <= '\U{ff5a}')
  }

  /** The end of the run of `#` that starts at `i`. */
  function HashRunEnd(s: string, i: nat): (k: nat)
    requires i <= |s|
    ensures i <= k <= |s|
    ensures forall j :: i <= j < k ==> s[j] == '#'
    ensures k < |s| ==> s[k] != '#'
    decreases |s| - i
  {
    if i < |s| && s[i] == '#' then HashRunEnd(s, i + 1) else i
  }

  /** The first `\n` at or after `i`, or `|s|`: where `[^\n]*` stops. */
  function LineEnd(s: string, i: nat): (k: nat)
    requires i <= |s|
    ensures i <= k <= |s|
    ensures forall j :: i <= j < k ==> s[j] != '\n'
    ensures k < |s| ==> s[k] == '\n'
    decreases |s| - i
  {
    if i < |s| && s[i] != '\n' then LineEnd(s, i + 1) else i
  }

  /** `^(?:#{1,6}\s*)?第\s*0*(\d+)\s*章[^\n]*` under `re.M`, tried at `p`. */
  function HeadingAt(s: string, p: nat): (m: Option<Match>)
    requires p <= |s|
    ensures m.Some? ==> m.value.start == p < m.value.end <= |s|
    ensures m.Some? ==> (p == 0 || s[p - 1] == '\n') && (s[p] == '第' || s[p] == '#')
    ensures m.Some? ==> m.value.end == |s| || s[m.value.end] == '\n'
    ensures m.Some? ==>
      exists i, j :: FirstDigitRun(s[p..m.value.end], i, j) && m.value.number == DigitsValue(s[p..m.value.end][i..j])
    ensures ((p == 0 || s[p - 1] == '\n') && p + 1 < |s| && s[p] == '第' && IsDigit(s[p + 1])
             && DigitRunEnd(s, p + 1) < |s| && s[DigitRunEnd(s, p + 1)] == '章') ==> m.Some?
  {
    if p > 0 && s[p - 1] != '\n' then None
    else
      var h := HashRunEnd(s, p);
      var q := if h == p then p else SkipSpace(s, h);
      if h - p > 6 || q == |s| || s[q] != '第' then None
      else
        var d := SkipSpace(s, q + 1);
        var e := DigitRunEnd(s, d);
        var c := SkipSpace(s, e);
        if e == d || c == |s| || s[c] != '章' then None
        else
          var end := LineEnd(s, c + 1);
          HeadingNumberIsFirstRun(s, p, h, q, d, e, end);
          Some(Match(p, end, DigitsValue(s[d..e])))
  }

  /** `\|\s*第\s*0*(\d+)\s*章\s*\|` tried at `p`; the match takes the closing `|`. */
  function RoleRowAt(s: string, p: nat): (m: Option<Match>)
    requires p <= |s|
    ensures m.Some? ==> m.value.start == p < m.value.end <= |s|
    ensures m.Some? ==> s[p] == '|' && s[m.value.end - 1] == '|'
    ensures m.Some? ==>
      exists i, j :: FirstDigitRun(s[p..m.value.end], i, j) && m.value.number == DigitsValue(s[p..m.value.end][i..j])
  {
    if p == |s| || s[p] != '|' then None
    else
      var a := SkipSpace(s, p + 1);
      if a == |s| || s[a] != '第' then None
      else
        var d := SkipSpace(s, a + 1);
        var e := DigitRunEnd(s, d);
        var c := SkipSpace(s, e);
        if e == d || c == |s| || s[c] != '章' then None
        else
          var f := SkipSpace(s, c + 1);
          if f == |s| || s[f] != '|' then None
          else
            var end := f + 1;
            RoleRowNumberIsFirstRun(s, p, a, d, e, end);
            Some(Match(p, end, DigitsValue(s[p..end][d - p..e - p])))
  }

  /** A cell written `|第N章|`, with no spaces, is matched. */
  lemma RoleRowAtFound(s: string, p: nat)
    requires p + 2 < |s| && s[p] == '|' && s[p + 1] == '第' && IsDigit(s[p + 2])
    requires DigitRunEnd(s, p + 2) + 1 < |s| && s[DigitRunEnd(s, p + 2)] == '章' && s[DigitRunEnd(s, p + 2) + 1] == '|'
    ensures RoleRowAt(s, p).Some?
  {
    var e := DigitRunEnd(s, p + 2);
    assert SkipSpace(s, p + 1) == p + 1;
    assert SkipSpace(s, p + 2) == p + 2;
    assert SkipSpace(s, e) == e;
    assert SkipSpace(s, e + 1) == e + 1;
  }


  /** The digits a pattern captures are the first digit run of its match,
      since everything the pattern takes before them is `#`, `|`, `第` or
      whitespace. */
  lemma NumberIsFirstRun(s: string, p: nat, d: nat, e: nat, end: nat)
    requires p <= d < e <= end <= |s|
    requires forall j :: p <= j < d ==> !IsDigit(s[j])
    requires forall j :: d <= j < e ==> IsDigit(s[j])
    requires e == |s| || !IsDigit(s[e])
    ensures FirstDigitRun(s[p..end], d - p, e - p) && s[p..end][d - p..e - p] == s[d..e] && AllDigits(s[d..e])
  {
    var t := s[p..end];
    assert forall k :: 0 <= k < |t| ==> t[k] == s[p + k];
  }

  /** A level-two heading with spaces and a zero-padded number, and a run of
      seven `#` that `#{1,6}` refuses. */
  lemma HeadingExamples(a: string, b: string)
    requires a == "## 第 012 章 起\nx" && b == "####### 第1章"
    ensures HeadingAt(a, 0) == Some(Match(0, 12, 12))
    ensures HeadingAt(b, 0).None?
  {
    assert HashRunEnd(a, 0) == 2 by { assert a[0] == '#' && a[1] == '#' && a[2] == ' '; }
    assert SkipSpace(a, 2) == 3 && SkipSpace(a, 4) == 5 by { assert a[3] == '第' && a[5] == '0'; }
    assert DigitRunEnd(a, 5) == 8 by { assert a[6] == '1' && a[7] == '2' && a[8] == ' '; }
    assert SkipSpace(a, 8) == 9 by { assert a[9] == '章'; }
    assert LineEnd(a, 10) == 12 by { assert a[10] == ' ' && a[11] == '起' && a[12] == '\n'; }
    assert a[5..8] == "012";
    assert DigitsValue("012") == 12 by { assert "012"[..2] == "01" && "01"[..1] == "0" && "0"[..0] == []; }
    assert HashRunEnd(b, 0) == 7 by { assert b[7] == ' '; }
  }

  /** In a heading, what comes before the digits is `#`, whitespace, `第`
      and whitespace again. */
  lemma HeadingNumberIsFirstRun(s: string, p: nat, h: nat, q: nat, d: nat, e: nat, end: nat)
    requires p <= h <= q < d < e <= end <= |s|
    requires forall j :: p <= j < h ==> s[j] == '#'
    requires forall j :: h <= j < q ==> IsSpace(s[j])
    requires s[q] == '第'
    requires forall j :: q < j < d ==> IsSpace(s[j])
    requires forall j :: d <= j < e ==> IsDigit(s[j])
    requires e == |s| || !IsDigit(s[e])
    ensures FirstDigitRun(s[p..end], d - p, e - p) && s[p..end][d - p..e - p] == s[d..e] && AllDigits(s[d..e])
  {
    NumberIsFirstRun(s, p, d, e, end);
  }

  /** In an action cell, what comes before the digits is `|`, whitespace,
      `第` and whitespace again. */
  lemma RoleRowNumberIsFirstRun(s: string, p: nat, a: nat, d: nat, e: nat, end: nat)
    requires p < a < d < e <= end <= |s|
    requires s[p] == '|' && s[a] == '第'
    requires forall j :: p < j < a ==> IsSpace(s[j])
    requires forall j :: a < j < d ==> IsSpace(s[j])
    requires forall j :: d <= j < e ==> IsDigit(s[j])
    requires e == |s| || !IsDigit(s[e])
    ensures FirstDigitRun(s[p..end], d - p, e - p) && s[p..end][d - p..e - p] == s[d..e] && AllDigits(s[d..e])
  {
    NumberIsFirstRun(s, p, d, e, end);
  }

  /** `\bF\d{3}\b` tried at `p`: `F` and three digits, with no word character
      directly before or after. */
  function ForeshadowIdAt(s: string, p: nat): (m: Option<Match>)
    requires p <= |s|
    ensures m.Some? ==> m.value.start == p && m.value.end == p + 4 <= |s|
    ensures m.Some? ==> s[p] == 'F' && AllDigits(s[p + 1..p + 4])
    ensures m.Some? ==> (p == 0 || !IsWordChar(s[p - 1])) && (p + 4 == |s| || !IsWordChar(s[p + 4]))
  {
    if p + 4 > |s| || s[p] != 'F' || !AllDigits(s[p + 1..p + 4])
      || (p > 0 && IsWordChar(s[p - 1])) || (p + 4 < |s| && IsWordChar(s[p + 4]))
    then None
    else Some(Match(p, p + 4, DigitsValue(s[p + 1..p + 4])))
  }

  function MatchAt(pat: Pattern, s: string, p: nat): (m: Option<Match>)
    requires p <= |s|
    ensures m.Some? ==> m.value.start == p < m.value.end <= |s|
  {
    match pat
    case ChapterHeading => HeadingAt(s, p)
    case RoleActionRow => RoleRowAt(s, p)
    case ForeshadowId => ForeshadowIdAt(s, p)
  }

  /** Matches inside the text, in order and not overlapping. */
  predicate Ordered(ms: seq<Match>, n: nat) {
    (forall k :: 0 <= k < |ms| ==> ms[k].start < ms[k].end <= n)
    && (forall k :: 0 <= k < |ms| - 1 ==> ms[k].end <= ms[k + 1].start)
  }

  /** Position `p` lies inside one of the matches. */
  predicate Covered(ms: seq<Match>, p: nat) {
    exists k :: 0 <= k < |ms| && ms[k].start <= p < ms[k].end
  }

  /** A table of the outcome of matching at every position `0..|s|`, with
      every match starting where it was tried and ending inside the text. */
  predicate MatchTable(t: seq<Option<Match>>) {
    forall p :: 0 <= p < |t| && t[p].Some? ==> t[p].value.start == p < t[p].value.end < |t|
  }

  /** The outcome of `pat` at every position of `s`. */
  function Table(pat: Pattern, s: string): (t: seq<Option<Match>>)
    ensures |t| == |s| + 1 && MatchTable(t)
    ensures forall p :: 0 <= p <= |s| ==> t[p] == MatchAt(pat, s, p)
  {
    seq(|s| + 1, p requires 0 <= p <= |s| => MatchAt(pat, s, p))
  }

  /** The scan of `re.finditer` over a match table, from `pos` on: take the
      match at the current position and resume at its end, or move one
      position on. */
  function Scan(t: seq<Option<Match>>, pos: nat): (ms: seq<Match>)
    requires MatchTable(t) && pos <= |t|
    ensures |t| > 0 ==> Ordered(ms, |t| - 1)
    ensures forall k :: 0 <= k < |ms| ==> pos <= ms[k].start < |t| && t[ms[k].start] == Some(ms[k])
    ensures forall p {:trigger Covered(ms, p)} :: pos <= p < |t| && t[p].Some? ==> Covered(ms, p)
    ensures ms == [] <==> forall p :: pos <= p < |t| ==> t[p].None?
    decreases |t| - pos
  {
    if pos == |t| then []
    else
      match t[pos]
      case None => Scan(t, pos + 1)
      case Some(m) =>
        var rest := Scan(t, m.end);
        ScanStep(t, pos, m, rest);
        [m] + rest
  }

  /** Taking the match at `pos` and the scan from its end gives the scan
      from `pos`. */
  lemma ScanStep(t: seq<Option<Match>>, pos: nat, m: Match, rest: seq<Match>)
    requires MatchTable(t) && pos < |t| && t[pos] == Some(m)
    requires Ordered(rest, |t| - 1)
    requires forall k :: 0 <= k < |rest| ==> m.end <= rest[k].start < |t| && t[rest[k].start] == Some(rest[k])
    requires forall p {:trigger Covered(rest, p)} :: m.end <= p < |t| && t[p].Some? ==> Covered(rest, p)
    ensures Ordered([m] + rest, |t| - 1)
    ensures forall k :: 0 <= k < |[m] + rest| ==>
      pos <= ([m] + rest)[k].start < |t| && t[([m] + rest)[k].start] == Some(([m] + rest)[k])
    ensures forall p {:trigger Covered([m] + rest, p)} :: pos <= p < |t| && t[p].Some? ==> Covered([m] + rest, p)
  {
    var ms := [m] + rest;
    assert forall k :: 1 <= k < |ms| ==> ms[k] == rest[k - 1];
    forall p | pos <= p < |t| && t[p].Some? ensures Covered(ms, p) {
      if p < m.end {
        assert ms[0].start <= p < ms[0].end;
      } else {
        assert Covered(rest, p);
        var k :| 0 <= k < |rest| && rest[k].start <= p < rest[k].end;
        assert ms[k + 1] == rest[k];
      }
    }
  }

  /** `re.finditer(pattern, s)` from position `pos` on, positions absolute.
      Every match it returns is the pattern's match at its start, and every
      position where the pattern matches is taken or lies inside a match
      taken before it. */
  function FindAll(pat: Pattern, s: string, pos: nat): (ms: seq<Match>)
    requires pos <= |s|
    ensures Ordered(ms, |s|)
    ensures forall k :: 0 <= k < |ms| ==> pos <= ms[k].start && MatchAt(pat, s, ms[k].start) == Some(ms[k])
    ensures forall p {:trigger Covered(ms, p)} :: pos <= p <= |s| && MatchAt(pat, s, p).Some? ==> Covered(ms, p)
    ensures ms == [] <==> forall p :: pos <= p <= |s| ==> MatchAt(pat, s, p).None?
  {
    Scan(Table(pat, s), pos)
  }

  /** `re.search`: the first match of the scan, if any. */
  function Search(pat: Pattern, s: string): (m: Option<Match>)
    ensures m.Some? <==> exists p :: 0 <= p <= |s| && MatchAt(pat, s, p).Some?
    ensures m.Some? ==> m.value.start <= |s| && MatchAt(pat, s, m.value.start) == m
    ensures m.Some? ==> forall p :: 0 <= p < m.value.start ==> MatchAt(pat, s, p).None?
  {
    var ms := FindAll(pat, s, 0);
    if ms == [] then None
    else
      assert forall p :: 0 <= p < ms[0].start ==> MatchAt(pat, s, p).None? by {
        forall p | 0 <= p < ms[0].start ensures MatchAt(pat, s, p).None? {
          if MatchAt(pat, s, p).Some? {
            assert Covered(ms, p);
            var k :| 0 <= k < |ms| && ms[k].start <= p < ms[k].end;
            FirstStartsFirst(ms, |s|, k);
          }
        }
      }
      Some(ms[0])
  }

  /** No match starts before the first one of an ordered list. */
  lemma {:induction false} FirstStartsFirst(ms: seq<Match>, n: nat, k: nat)
    requires Ordered(ms, n) && k < |ms|
    ensures ms[0].start <= ms[k].start
    decreases k
  {
    if k > 0 {
      FirstStartsFirst(ms, n, k - 1);
    }
  }

  /** The matched text of every match in an ordered list. */
  function MatchedTexts(s: string, ms: seq<Match>): (texts: seq<string>)
    requires Ordered(ms, |s|)
    ensures |texts| == |ms|
    ensures forall k :: 0 <= k < |ms| ==> texts[k] == s[ms[k].start..ms[k].end]
  {
    seq(|ms|, k requires 0 <= k < |ms| => s[ms[k].start..ms[k].end])
  }

  /** What `FORESHADOW_ID_RE.findall` returns is always `F` and three digits. */
  lemma ForeshadowIdShape(s: string, k: nat)
    requires k < |FindAll(ForeshadowId, s, 0)|
    ensures var t := MatchedTexts(s, FindAll(ForeshadowId, s, 0))[k];
      |t| == 4 && t[0] == 'F' && AllDigits(t[1..])
  {
    var ms := FindAll(ForeshadowId, s, 0);
    var m := ms[k];
    assert MatchAt(ForeshadowId, s, m.start) == Some(m);
    var t := s[m.start..m.end];
    assert t[1..] == s[m.start + 1..m.start + 4];
  }

  /** A text without the character 第 holds no chapter heading and no
      role-action cell. */
  lemma NoChapterMarkNoMatches(s: string, pat: Pattern)
    requires pat != ForeshadowId
    requires forall i :: 0 <= i < |s| ==> s[i] != '第'
    ensures FindAll(pat, s, 0) == []
  {
    forall p | 0 <= p <= |s| ensures MatchAt(pat, s, p).None? {
    }
    assert Search(pat, s).None?;
  }
}
