/** The cell and text helpers of the narrative engine: status and id
    normalisation, chapter-number extraction from a ledger cell, Markdown
    cell escaping, character counting, template-placeholder detection and
    the chapter file-name format. */
module Cells {
  import opened Wrappers
  import opened Text
  import opened Seqs

  /** The status a blank ledger cell is shown with ("unlabelled"). */
  const Unlabeled: string := "未标注"

  /** `normalize_status`: the stripped status, or 未标注 when nothing is left. */
  function NormalizeStatus(value: string): (r: string)
    ensures r != [] && Trimmed(r)
    ensures r == Unlabeled <==> Strip(value) == [] || Strip(value) == Unlabeled
    ensures r != Unlabeled ==> r == Strip(value)
  {
    var text := Strip(value);
    if text != [] then text else Unlabeled
  }

  lemma NormalizeStatusIdempotent(value: string)
    ensures NormalizeStatus(NormalizeStatus(value)) == NormalizeStatus(value)
  {
    StripTrimmed(NormalizeStatus(value));
  }

  /** `normalize_id`: stripped and upper-cased, so ids compare case-insensitively. */
  function NormalizeId(value: string): (r: string)
    ensures |r| == |Strip(value)| && Trimmed(r)
    ensures forall i :: 0 <= i < |r| ==> !('a' <= r[i] <= 'z')
    ensures forall i :: 0 <= i < |r| ==> r[i] == UpperChar(Strip(value)[i])
  {
    UpperKeepsTrimmed(Strip(value));
    Upper(Strip(value))
  }

  /** Normalising an id twice changes nothing more. */
  lemma NormalizeIdIdempotent(value: string)
    ensures NormalizeId(NormalizeId(value)) == NormalizeId(value)
  {
    var once := NormalizeId(value);
    StripTrimmed(once);
    UpperIdempotent(Strip(value));
  }

  /** Ids compare case-insensitively: upper-casing the raw id first gives the
      same normalised id. */
  lemma NormalizeIdIgnoresCase(value: string)
    ensures NormalizeId(Upper(value)) == NormalizeId(value)
  {
    var lo, hi := StripBounds(value);
    var a, r, b := value[..lo], value[lo..hi], value[hi..];
    assert value == a + r + b;
    UpperConcat(a, r);
    UpperConcat(a + r, b);
    UpperKeepsAllSpace(a);
    UpperKeepsAllSpace(b);
    UpperKeepsTrimmed(r);
    StripUnique(Upper(a), Upper(r), Upper(b));
    UpperIdempotent(r);
  }

  /** `extract_chapter_num`: the value of the first digit run of the stripped
      cell, or `None` when the cell is blank or has no digit. */
  function ExtractChapterNum(value: string): Option<nat> {
    var text := Strip(value);
    if text == [] then None
    else
      var i := FirstDigit(text, 0);
      if i == |text| then None else Some(DigitsValue(text[i..DigitRunEnd(text, i)]))
  }

  /** A cell yields no chapter exactly when it holds no digit; otherwise it
      yields the value of its first maximal digit run (so "0" gives 0). */
  lemma ExtractChapterNumFirstRun(value: string)
    ensures ExtractChapterNum(value) == None <==> forall k :: 0 <= k < |value| ==> !IsDigit(value[k])
    ensures ExtractChapterNum(value).Some? ==>
      exists i, j :: FirstDigitRun(value, i, j) && ExtractChapterNum(value).value == DigitsValue(value[i..j])
  {
    var lo, hi := StripBounds(value);
    var text := value[lo..hi];
    var i := FirstDigit(text, 0);
    if i == |text| {
      NoDigitAroundStripped(value, lo, hi);
    } else {
      var e := DigitRunEnd(text, i);
      RunAroundStripped(value, lo, hi, i, e);
    }
  }

  /** Whitespace holds no digit, so a string whose stripped part has no
      digit has none at all. */
  lemma NoDigitAroundStripped(value: string, lo: nat, hi: nat)
    requires lo <= hi <= |value| && AllSpace(value[..lo]) && AllSpace(value[hi..])
    requires forall k :: 0 <= k < hi - lo ==> !IsDigit(value[lo..hi][k])
    ensures forall k :: 0 <= k < |value| ==> !IsDigit(value[k])
  {
    forall k | 0 <= k < |value| ensures !IsDigit(value[k]) {
      if k < lo {
        assert value[..lo][k] == value[k];
      } else if k < hi {
        assert value[lo..hi][k - lo] == value[k];
      } else {
        assert value[hi..][k - hi] == value[k];
      }
    }
  }

  /** The first digit run of the stripped part is the first digit run of
      the whole string, shifted by the leading whitespace. */
  lemma RunAroundStripped(value: string, lo: nat, hi: nat, i: nat, e: nat)
    requires lo <= hi <= |value| && AllSpace(value[..lo]) && AllSpace(value[hi..])
    requires FirstDigitRun(value[lo..hi], i, e)
    ensures FirstDigitRun(value, lo + i, lo + e)
    ensures value[lo + i..lo + e] == value[lo..hi][i..e]
  {
    var text := value[lo..hi];
    assert text[i] == value[lo + i];
    forall k | 0 <= k < lo + i ensures !IsDigit(value[k]) {
      if k < lo {
        assert value[..lo][k] == value[k];
      } else {
        assert text[k - lo] == value[k];
      }
    }
    forall k | lo + i <= k < lo + e ensures IsDigit(value[k]) {
      assert text[k - lo] == value[k];
    }
    if lo + e < |value| {
      if e < |text| {
        assert text[e] == value[lo + e];
      } else {
        assert value[hi..][0] == value[hi];
      }
    }
    assert value[lo + i..lo + e] == text[i..e] by {
      forall k | 0 <= k < e - i ensures value[lo + i..lo + e][k] == text[i..e][k] {
        assert text[i + k] == value[lo + i + k];
      }
    }
  }

  /** A string has at most one first maximal digit run. */
  lemma FirstDigitRunUnique(s: string, i: int, j: int, i': int, j': int)
    requires FirstDigitRun(s, i, j) && FirstDigitRun(s, i', j')
    ensures i == i' && j == j'
  {
    assert IsDigit(s[i]) && IsDigit(s[i']);
    assert j < |s| ==> !IsDigit(s[j]);
    assert j' < |s| ==> !IsDigit(s[j']);
  }

  /** The chapter a cell yields, read off a known first digit run. */
  lemma ExtractChapterNumOfRun(value: string, i: int, j: int)
    requires FirstDigitRun(value, i, j)
    ensures ExtractChapterNum(value) == Some(DigitsValue(value[i..j]))
  {
    ExtractChapterNumFirstRun(value);
    assert IsDigit(value[i]);
    var i', j' :| FirstDigitRun(value, i', j') && ExtractChapterNum(value).value == DigitsValue(value[i'..j']);
    FirstDigitRunUnique(value, i, j, i', j');
  }

  /** The examples the ledger format promises: "第012章", "ch12" and "  12  "
      all give 12, "0" gives a present 0, and a cell without digits gives none. */
  lemma ExtractChapterNumExamples()
    ensures ExtractChapterNum("第012章") == Some(12)
    ensures ExtractChapterNum("ch12") == Some(12)
    ensures ExtractChapterNum("  12  ") == Some(12)
    ensures ExtractChapterNum("0") == Some(0)
    ensures ExtractChapterNum("待定") == None
  {
    ExampleLeadingZeros();
    ExamplePrefixed();
    ExamplePadded();
    ExampleZero();
    ExampleNoDigit();
  }

  lemma ExamplePrefixed()
    ensures ExtractChapterNum("ch12") == Some(12)
  {
    TwelveAt("ch12", 2, 4);
  }

  lemma ExamplePadded()
    ensures ExtractChapterNum("  12  ") == Some(12)
  {
    TwelveAt("  12  ", 2, 4);
  }

  lemma ExampleNoDigit()
    ensures ExtractChapterNum("待定") == None
  {
    ExtractChapterNumFirstRun("待定");
  }

  lemma ExampleLeadingZeros()
    ensures ExtractChapterNum("第012章") == Some(12)
  {
    TwelveAt("第012章", 1, 4);
  }

  lemma ExampleZero()
    ensures ExtractChapterNum("0") == Some(0)
  {
    assert DigitsValue("0") == 0 by { assert "0"[..0] == []; }
    assert "0"[0..1] == "0";
    ExtractChapterNumOfRun("0", 0, 1);
  }

  lemma TwelveAt(value: string, i: int, j: int)
    requires FirstDigitRun(value, i, j) && j - i >= 2
    requires value[j - 2] == '1' && value[j - 1] == '2'
    requires forall k :: i <= k < j - 2 ==> value[k] == '0'
    ensures ExtractChapterNum(value) == Some(12)
  {
    ExtractChapterNumOfRun(value, i, j);
    var d := value[i..j];
    forall k | 0 <= k < |d| - 2 ensures d[k] == '0' {
      assert d[k] == value[i + k];
    }
    ZerosThenTwelve(d);
  }

  lemma ZerosThenTwelve(d: string)
    requires |d| >= 2 && d[|d| - 2] == '1' && d[|d| - 1] == '2'
    requires forall k :: 0 <= k < |d| - 2 ==> d[k] == '0'
    ensures AllDigits(d) && DigitsValue(d) == 12
  {
    var z := d[..|d| - 2];
    assert d == z + "12";
    assert DigitsValue("12") == 12 by {
      assert "12"[..1] == "1" && "1"[..0] == [];
    }
    ZerosThenDigits(z, "12");
  }

  /** A run of zeros in front of digits does not change their value. */
  lemma {:induction false} ZerosThenDigits(z: string, d: string)
    requires forall k :: 0 <= k < |z| ==> z[k] == '0'
    requires AllDigits(d)
    ensures AllDigits(z + d) && DigitsValue(z + d) == DigitsValue(d)
    decreases |z|
  {
    if z != [] {
      ZerosThenDigits(z[1..], d);
      LeadingZero(z[1..] + d);
      assert z + d == "0" + (z[1..] + d);
    } else {
      assert z + d == d;
    }
  }

  /** Every `|` of the text is escaped: it is not the first character, and
      the character before it is a backslash. */
  predicate PipesEscaped(s: string) {
    (|s| > 0 ==> s[0] != '|') &&
    forall i, j :: 0 <= i < |s| && j == i + 1 && j < |s| && s[j] == '|' ==> s[i] == '\\'
  }

  /** `s.replace("|", "\\|")`. */
  function EscapePipes(s: string): (r: string)
    ensures PipesEscaped(r)
    ensures AllSpace(s) ==> r == s
    decreases |s|
  {
    if s == [] then [] else (if s[0] == '|' then "\\|" else [s[0]]) + EscapePipes(s[1..])
  }

  /** Reading an escaped cell back: `\|` stands for `|`. */
  function UnescapePipes(t: string): string
    decreases |t|
  {
    if t == [] then []
    else if |t| >= 2 && t[0] == '\\' && t[1] == '|' then "|" + UnescapePipes(t[2..])
    else [t[0]] + UnescapePipes(t[1..])
  }

  /** Escaping loses nothing: unescaping gives the original text back. */
  lemma {:induction false} EscapeRoundTrip(s: string)
    ensures UnescapePipes(EscapePipes(s)) == s
    decreases |s|
  {
    if s != [] {
      var rest := EscapePipes(s[1..]);
      EscapeRoundTrip(s[1..]);
      if s[0] == '|' {
        assert EscapePipes(s) == "\\|" + rest;
        assert ("\\|" + rest)[2..] == rest;
      } else {
        assert EscapePipes(s) == [s[0]] + rest;
        assert ([s[0]] + rest)[1..] == rest;
        assert rest != [] ==> rest[0] != '|';
      }
    }
  }

  lemma {:induction false} EscapeConcat(a: string, b: string)
    ensures EscapePipes(a + b) == EscapePipes(a) + EscapePipes(b)
    decreases |a|
  {
    if a != [] {
      assert (a + b)[0] == a[0] && (a + b)[1..] == a[1..] + b;
      EscapeConcat(a[1..], b);
      var head := if a[0] == '|' then "\\|" else [a[0]];
      assert EscapePipes(a + b) == head + EscapePipes(a[1..] + b);
      assert EscapePipes(a) == head + EscapePipes(a[1..]);
    } else {
      assert a + b == b;
    }
  }

  /** Escaping keeps the first and last characters non-blank. */
  lemma EscapeKeepsTrimmed(s: string)
    requires Trimmed(s)
    ensures Trimmed(EscapePipes(s))
  {
    if s != [] {
      var n := |s| - 1;
      assert s == s[..n] + [s[n]];
      EscapeConcat(s[..n], [s[n]]);
      assert EscapePipes([s[n]]) == (if s[n] == '|' then "\\|" else [s[n]]);
    }
  }

  /** Escaping and stripping commute, since `\|` and `|` are not whitespace. */
  lemma StripEscapeCommute(value: string)
    ensures Strip(EscapePipes(value)) == EscapePipes(Strip(value))
  {
    var lo, hi := StripBounds(value);
    var a, core, b := value[..lo], value[lo..hi], value[hi..];
    assert value == a + core + b;
    EscapeConcat(a + core, b);
    EscapeConcat(a, core);
    assert EscapePipes(value) == a + EscapePipes(core) + b;
    EscapeKeepsTrimmed(core);
    StripUnique(a, EscapePipes(core), b);
  }

  /** `safe_cell`: a ledger value made safe for a Markdown table cell. Every
      `|` in it is escaped, and unescaping gives back the stripped value. */
  function SafeCell(value: string): (r: string)
    ensures PipesEscaped(r)
    ensures UnescapePipes(r) == Strip(value)
  {
    StripEscapeCommute(value);
    EscapeRoundTrip(Strip(value));
    Strip(EscapePipes(value))
  }

  /** `count_non_whitespace`: `len(re.sub(r"\s+", "", text))`. */
  function CountNonWhitespace(text: string): (n: nat)
    ensures n <= |text|
    ensures n == 0 <==> AllSpace(text)
    ensures n == |text| <==> forall i :: 0 <= i < |text| ==> !IsSpace(text[i])
    decreases |text|
  {
    if text == [] then 0
    else (if IsSpace(text[0]) then 0 else 1) + CountNonWhitespace(text[1..])
  }

  lemma {:induction false} CountNonWhitespaceConcat(a: string, b: string)
    ensures CountNonWhitespace(a + b) == CountNonWhitespace(a) + CountNonWhitespace(b)
    decreases |a|
  {
    if a != [] {
      assert (a + b)[0] == a[0] && (a + b)[1..] == a[1..] + b;
      CountNonWhitespaceConcat(a[1..], b);
    } else {
      assert a + b == b;
    }
  }

  /** Surrounding whitespace does not count toward a chapter's length. */
  lemma CountNonWhitespaceStrip(text: string)
    ensures CountNonWhitespace(Strip(text)) == CountNonWhitespace(text)
  {
    var lo, hi := StripBounds(text);
    assert text == text[..lo] + text[lo..hi] + text[hi..];
    CountNonWhitespaceConcat(text[..lo] + text[lo..hi], text[hi..]);
    CountNonWhitespaceConcat(text[..lo], text[lo..hi]);
  }

  /** `PLACEHOLDER_SNIPPETS`: markers a chapter template leaves behind. */
  const PlaceholderSnippets: seq<string> := ["<章节标题>", "（在此写正文）", "(在此写正文)", "在此写正文"]

  /** Whether a marker occurs in the text, as `snippet in text` asks. */
  function OccursIn(text: string): string -> bool {
    m => IsSubstring(m, text)
  }

  /** The markers of a list that occur in the text. */
  function MarkersFound(markers: seq<string>, text: string): (found: seq<string>)
    requires forall a, b :: 0 <= a < b < |markers| ==> markers[a] != markers[b]
    ensures forall m :: m in found <==> m in markers && IsSubstring(m, text)
    ensures found == [] <==> forall m :: m in markers ==> !IsSubstring(m, text)
  {
    var found := Filter(markers, OccursIn(text));
    assert found != [] ==> found[0] in found;
    found
  }

  /** The markers found come in list order. */
  lemma MarkersFoundInOrder(markers: seq<string>, text: string)
    requires forall a, b :: 0 <= a < b < |markers| ==> markers[a] != markers[b]
    ensures var found := MarkersFound(markers, text);
      forall i, j :: 0 <= i < j < |found| ==> IndexOf(markers, found[i]) < IndexOf(markers, found[j])
  {
    var found, r := MarkersFound(markers, text), Filter(markers, OccursIn(text));
    assert found == r;
    FilterInListOrder(markers, OccursIn(text));
    forall i, j | 0 <= i < j < |found| ensures IndexOf(markers, found[i]) < IndexOf(markers, found[j]) {
      assert found[i] == r[i] && found[j] == r[j];
    }
  }

  /** `find_placeholders`: the markers found in the text, each once, in
      declaration order. */
  function FindPlaceholders(text: string): (found: seq<string>)
    ensures forall m :: m in found <==> m in PlaceholderSnippets && IsSubstring(m, text)
    ensures found == [] <==> forall m :: m in PlaceholderSnippets ==> !IsSubstring(m, text)
    ensures forall i, j :: 0 <= i < j < |found| ==>
      IndexOf(PlaceholderSnippets, found[i]) < IndexOf(PlaceholderSnippets, found[j])
  {
    SnippetsDistinct();
    MarkersFoundInOrder(PlaceholderSnippets, text);
    MarkersFound(PlaceholderSnippets, text)
  }

  /** No marker is listed twice. */
  lemma SnippetsDistinct()
    ensures forall a, b :: 0 <= a < b < |PlaceholderSnippets| ==> PlaceholderSnippets[a] != PlaceholderSnippets[b]
  {
    var s := PlaceholderSnippets;
    assert |s[0]| == 6 && |s[1]| == 7 && |s[2]| == 7 && |s[3]| == 5;
    assert s[1][0] != s[2][0];
  }

  /** A bracketed "write here" marker contains the bare one, so a template
      line left in a draft is reported under both names. */
  lemma NestedPlaceholders(text: string)
    requires IsSubstring("（在此写正文）", text) || IsSubstring("(在此写正文)", text)
    ensures "在此写正文" in FindPlaceholders(text)
    ensures |FindPlaceholders(text)| >= 2
  {
    var outer := if IsSubstring("（在此写正文）", text) then "（在此写正文）" else "(在此写正文)";
    var i :| 0 <= i <= |text| && OccursAt(outer, text, i);
    assert |outer| == 7 && outer[1..6] == "在此写正文";
    assert text[i..i + 7] == outer;
    assert OccursAt("在此写正文", text, i + 1) by {
      forall k | 0 <= k < 5 ensures text[i + 1 + k] == "在此写正文"[k] {
        assert text[i..i + 7][k + 1] == text[i + 1 + k];
      }
      assert text[i + 1..i + 6] == "在此写正文";
    }
    var found := FindPlaceholders(text);
    assert outer in found && "在此写正文" in found && outer != "在此写正文";
    var a :| 0 <= a < |found| && found[a] == outer;
    var b :| 0 <= b < |found| && found[b] == "在此写正文";
    assert a != b;
  }

  /** `chapter_file`'s name: 第 + `f"{chapter:03d}"` + 章.md. */
  function ChapterFileName(chapter: int): string {
    "第" + Format03(chapter) + "章.md"
  }
}
