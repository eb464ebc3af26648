/** `split_suboutline_sections`: the sub-outline document cut into one
    section per chapter heading, keyed by chapter number. */
module Outline {
  import opened Text
  import opened Matching

  /** The chapter headings of the document, in document order. */
  function Headings(text: string): (hs: seq<Match>)
    ensures Ordered(hs, |text|)
  {
    FindAll(ChapterHeading, text, 0)
  }

  /** Where section `i` ends: at the next heading, or at the end of the text. */
  function SectionEnd(text: string, hs: seq<Match>, i: nat): (e: nat)
    requires Ordered(hs, |text|) && i < |hs|
    ensures hs[i].end <= e <= |text|
  {
    if i + 1 < |hs| then hs[i + 1].start else |text|
  }

  /** The text of section `i`: from its heading to the next heading, stripped. */
  function SectionText(text: string, hs: seq<Match>, i: nat): string
    requires Ordered(hs, |text|) && i < |hs|
  {
    Strip(text[hs[i].start..SectionEnd(text, hs, i)])
  }

  /** The texts of all sections, in heading order. */
  function SectionTexts(text: string, hs: seq<Match>): (ts: seq<string>)
    requires Ordered(hs, |text|)
    ensures |ts| == |hs| && forall i :: 0 <= i < |hs| ==> ts[i] == SectionText(text, hs, i)
  {
    seq(|hs|, i requires 0 <= i < |hs| => SectionText(text, hs, i))
  }

  /** The map after the loop has handled the first `n` headings, heading `i`
      bringing value `vals[i]`; a later heading with the same number
      overwrites an earlier one. */
  function SectionMap(hs: seq<Match>, vals: seq<string>, n: nat): map<nat, string>
    requires n <= |hs| == |vals|
  {
    if n == 0 then map[]
    else SectionMap(hs, vals, n - 1)[hs[n - 1].number := vals[n - 1]]
  }

  /** The result of `split_suboutline_sections`. */
  function Sections(text: string): map<nat, string> {
    var hs := Headings(text);
    SectionMap(hs, SectionTexts(text, hs), |hs|)
  }

  /** `split_suboutline_sections`: find the headings, then cut the text at them. */
  method SplitSuboutlineSections(text: string) returns (sections: map<nat, string>)
    ensures sections == Sections(text)
  {
    var matches := Headings(text);
    sections := CutSections(text, matches);
  }

  /** The loop of `split_suboutline_sections` over the heading matches. */
  method CutSections(text: string, matches: seq<Match>) returns (sections: map<nat, string>)
    requires Ordered(matches, |text|)
    ensures sections == SectionMap(matches, SectionTexts(text, matches), |matches|)
  {
    ghost var texts := SectionTexts(text, matches);
    sections := map[];
    for index := 0 to |matches|
      invariant sections == SectionMap(matches, texts, index)
    {
      var chapterNum := matches[index].number;
      var start := matches[index].start;
      var end := if index + 1 < |matches| then matches[index + 1].start else |text|;
      assert end == SectionEnd(text, matches, index);
      assert texts[index] == Strip(text[start..end]);
      sections := sections[chapterNum := Strip(text[start..end])];
    }
  }

  /** The keys of the map are exactly the numbers of the headings handled. */
  lemma {:induction false} SectionMapKeys(hs: seq<Match>, vals: seq<string>, n: nat, chapter: nat)
    requires n <= |hs| == |vals|
    ensures chapter in SectionMap(hs, vals, n) <==> exists i :: 0 <= i < n && hs[i].number == chapter
  {
    if n > 0 {
      SectionMapKeys(hs, vals, n - 1, chapter);
      if hs[n - 1].number == chapter {
        assert 0 <= n - 1 < n && hs[n - 1].number == chapter;
      }
    }
  }

  /** Each entry holds the value of the last heading with that number. */
  lemma {:induction false} SectionMapLastWins(hs: seq<Match>, vals: seq<string>, n: nat, i: nat)
    requires i < n <= |hs| == |vals|
    requires forall j :: i < j < n ==> hs[j].number != hs[i].number
    ensures hs[i].number in SectionMap(hs, vals, n)
    ensures SectionMap(hs, vals, n)[hs[i].number] == vals[i]
  {
    if i < n - 1 {
      SectionMapLastWins(hs, vals, n - 1, i);
      assert hs[n - 1].number != hs[i].number;
    }
  }

  /** A chapter has a section exactly when some heading carries its number. */
  lemma SectionsKeys(text: string, chapter: nat)
    ensures chapter in Sections(text) <==>
      exists i :: 0 <= i < |Headings(text)| && Headings(text)[i].number == chapter
  {
    var hs := Headings(text);
    SectionMapKeys(hs, SectionTexts(text, hs), |hs|, chapter);
  }

  /** A repeated chapter heading: the section of the last one is kept. */
  lemma SectionsLastHeadingWins(text: string, i: nat)
    requires i < |Headings(text)|
    requires forall j :: i < j < |Headings(text)| ==> Headings(text)[j].number != Headings(text)[i].number
    ensures Headings(text)[i].number in Sections(text)
    ensures Sections(text)[Headings(text)[i].number] == SectionText(text, Headings(text), i)
  {
    var hs := Headings(text);
    SectionMapLastWins(hs, SectionTexts(text, hs), |hs|, i);
  }

  /** No section map without headings, and no headings without a section map. */
  lemma SectionsEmptyIff(text: string)
    ensures Sections(text) == map[] <==> Headings(text) == []
  {
    var hs := Headings(text);
    if hs != [] {
      SectionMapKeys(hs, SectionTexts(text, hs), |hs|, hs[0].number);
    }
  }

  /** A section never swallows another heading: between the end of its own
      heading line and the end of the section, no heading starts. */
  lemma SectionHoldsOneHeading(text: string, i: nat, p: nat)
    requires i < |Headings(text)|
    requires Headings(text)[i].end <= p < SectionEnd(text, Headings(text), i)
    ensures HeadingAt(text, p).None?
  {
    var hs := Headings(text);
    if HeadingAt(text, p).Some? {
      assert MatchAt(ChapterHeading, text, p).Some? && Covered(hs, p);
      var k :| 0 <= k < |hs| && hs[k].start <= p < hs[k].end;
      if k < i {
        OrderedStarts(hs, |text|, k, i);
      } else if k > i {
        OrderedStarts(hs, |text|, i + 1, k);
      }
    }
  }

  /** In an ordered list of matches, a later match starts after an earlier one ends. */
  lemma {:induction false} OrderedStarts(ms: seq<Match>, n: nat, i: nat, j: nat)
    requires Ordered(ms, n) && i < j < |ms|
    ensures ms[i].end <= ms[j].start
    decreases j - i
  {
    if i + 1 < j {
      OrderedStarts(ms, n, i + 1, j);
    }
  }

  /** The empty document has neither headings nor sections. */
  lemma EmptyTextNoSections(text: string)
    requires text == []
    ensures Headings(text) == [] && Sections(text) == map[]
  {
    NoChapterMarkNoSections(text);
    SectionsEmptyIff(text);
  }

  /** A document without the character 第 has no sections. */
  lemma NoChapterMarkNoSections(text: string)
    requires forall i :: 0 <= i < |text| ==> text[i] != '第'
    ensures Sections(text) == map[]
  {
    NoChapterMarkNoMatches(text, ChapterHeading);
  }
}
