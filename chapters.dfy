/** Chapter draft files: the strict 第NNN章.md naming rule, the chapter index
    that `collect_chapter_files` builds from a directory listing, the
    numbering gaps the continuity check reports and the next chapter number
    `infer_next_chapter` proposes. */
module ChapterFiles {
  import opened Text
  import opened Seqs
  import opened Cells

  /** `CHAPTER_FILE_RE` (`^第(\d{3})章\.md$`) on a name `glob("*.md")` returned:
      第, exactly three digits, 章.md. */
  predicate IsChapterFileName(name: string) {
    |name| == 8 && name[0] == '第' && AllDigits(name[1..4]) && name[4..] == "章.md"
  }

  /** `int(match.group(1))`: the chapter number an accepted name stands for. */
  function ChapterKey(name: string): nat
    requires IsChapterFileName(name)
  {
    DigitsValue(name[1..4])
  }

  lemma ThreeDigitsBound(d: string)
    requires AllDigits(d) && |d| == 3
    ensures DigitsValue(d) <= 999
  {
    var d2 := d[..2];
    var d1 := d2[..1];
    assert d1[..0] == [];
    assert DigitsValue(d1) <= 9;
    assert DigitsValue(d2) <= 99;
  }

  /** `chapter_file`'s name for chapters 0 to 999 is accepted, keyed by the chapter. */
  lemma ChapterFileNameAccepted(n: int)
    requires 0 <= n <= 999
    ensures IsChapterFileName(ChapterFileName(n)) && ChapterKey(ChapterFileName(n)) == n
  {
    Format03Digits(n);
    var name := ChapterFileName(n);
    assert name[1..4] == Format03(n);
  }

  /** Every accepted name is `chapter_file`'s name for its key, so names and
      keys correspond one to one. */
  lemma ChapterFileNameOfKey(name: string)
    requires IsChapterFileName(name)
    ensures ChapterKey(name) <= 999 && ChapterFileName(ChapterKey(name)) == name
  {
    var k := ChapterKey(name);
    ThreeDigitsBound(name[1..4]);
    Format03Digits(k);
    DigitsValueInjective(Format03(k), name[1..4]);
    assert name == "第" + name[1..4] + "章.md";
  }

  /** Outside 0..999, `chapter_file` names a file the naming rule rejects. */
  lemma ChapterFileNameRejected(n: int)
    requires n < 0 || n > 999
    ensures !IsChapterFileName(ChapterFileName(n))
  {
    var name := ChapterFileName(n);
    if n < 0 {
      assert name[1] == '-';
    } else {
      assert |Format03(n)| >= 4;
    }
  }

  /** The chapter map `collect_chapter_files` fills, name by name in listing order. */
  function ChapterIndex(names: seq<string>): (index: map<nat, string>)
    ensures forall k :: k in index ==>
      index[k] in names && IsChapterFileName(index[k]) && ChapterKey(index[k]) == k
    ensures forall name :: name in names && IsChapterFileName(name) ==>
      ChapterKey(name) in index && index[ChapterKey(name)] == name
    decreases |names|
  {
    if names == [] then map[] else
      var init := names[..|names| - 1];
      var last := names[|names| - 1];
      assert names == init + [last];
      var index := ChapterIndex(init);
      if IsChapterFileName(last) then
        assert forall name :: name in init && IsChapterFileName(name) && ChapterKey(name) == ChapterKey(last) ==> name == last by {
          forall name | name in init && IsChapterFileName(name) && ChapterKey(name) == ChapterKey(last) ensures name == last {
            ChapterFileNameOfKey(name);
            ChapterFileNameOfKey(last);
          }
        }
        index[ChapterKey(last) := last]
      else index
  }

  /** For chapters 0 to 999, the file `chapter_file` names is listed exactly
      when the chapter map has an entry for the chapter. */
  lemma ListedUnderOwnNumber(names: seq<string>, chapter: int)
    requires 0 <= chapter <= 999
    ensures ChapterFileName(chapter) in names <==> chapter in ChapterIndex(names)
  {
    ChapterFileNameAccepted(chapter);
    var index := ChapterIndex(names);
    if chapter in index {
      ChapterFileNameOfKey(index[chapter]);
    }
  }

  /** The names `collect_chapter_files` reports as naming violations, in listing order. */
  function InvalidNames(names: seq<string>): seq<string> {
    Filter(names, name => !IsChapterFileName(name))
  }

  /** `collect_chapter_files` over the sorted `*.md` names of the chapter
      directory (empty when the directory does not exist). */
  method CollectChapterFiles(names: seq<string>) returns (chapters: map<nat, string>, invalid: seq<string>)
    ensures chapters == ChapterIndex(names)
    ensures invalid == InvalidNames(names)
  {
    chapters := map[];
    invalid := [];
    for i := 0 to |names|
      invariant chapters == ChapterIndex(names[..i])
      invariant invalid == InvalidNames(names[..i])
    {
      var name := names[i];
      assert names[..i + 1] == names[..i] + [name];
      FilterSnoc(names[..i], name, n => !IsChapterFileName(n));
      if !IsChapterFileName(name) {
        invalid := invalid + [name];
        continue;
      }
      chapters := chapters[ChapterKey(name) := name];
    }
    assert names[..|names|] == names;
  }

  /** Every listed name lands in exactly one place: the chapter map under its
      number, or the list of naming violations. */
  lemma ChapterListingPartition(names: seq<string>, name: string)
    requires name in names
    ensures name in InvalidNames(names) <==> !IsChapterFileName(name)
    ensures IsChapterFileName(name) <==>
      exists k :: k in ChapterIndex(names) && ChapterIndex(names)[k] == name
  {
    if IsChapterFileName(name) {
      assert ChapterKey(name) in ChapterIndex(names);
    }
  }

  /** A non-empty set of chapter numbers has a least element. */
  lemma HasMin(s: set<nat>)
    requires s != {}
    ensures exists m :: m in s && forall x :: x in s ==> m <= x
  {
    var y :| y in s;
    var m := MinAtMost(s, y);
  }

  /** The least element, found by stepping down from any element. */
  lemma {:induction false} MinAtMost(s: set<nat>, y: nat) returns (m: nat)
    requires y in s
    ensures m in s && m <= y && forall x :: x in s ==> m <= x
    decreases y
  {
    if x :| x in s && x < y {
      m := MinAtMost(s, x);
    } else {
      m := y;
    }
  }

  /** A non-empty set of chapter numbers has a greatest element. */
  lemma HasMax(s: set<nat>)
    requires s != {}
    ensures exists m :: m in s && forall x :: x in s ==> x <= m
  {
    var y :| y in s;
    var m := MaxAtLeast(s, y);
  }

  /** The elements of `s` above `y`. */
  function Above(s: set<nat>, y: nat): set<nat> {
    set x | x in s && y < x
  }

  /** The greatest element, found by stepping up from any element; the
      elements above the current one shrink at every step. */
  lemma {:induction false} MaxAtLeast(s: set<nat>, y: nat) returns (m: nat)
    requires y in s
    ensures m in s && y <= m && forall x :: x in s ==> x <= m
    decreases Above(s, y)
  {
    if x :| x in s && y < x {
      assert x in Above(s, y) && x !in Above(s, x);
      assert Above(s, x) < Above(s, y);
      m := MaxAtLeast(s, x);
    } else {
      m := y;
    }
  }

  /** `sorted(...)[0]`. */
  function SetMin(s: set<nat>): (m: nat)
    requires s != {}
    ensures m in s && forall x :: x in s ==> m <= x
  {
    HasMin(s);
    var m :| m in s && forall x :: x in s ==> m <= x; m
  }

  /** `sorted(...)[-1]`. */
  function SetMax(s: set<nat>): (m: nat)
    requires s != {}
    ensures m in s && forall x :: x in s ==> x <= m
  {
    HasMax(s);
    var m :| m in s && forall x :: x in s ==> x <= m; m
  }

  /** `[num for num in range(lo, hi + 1) if num not in present]`. */
  function GapsBetween(present: set<nat>, lo: nat, hi: nat): (gaps: seq<nat>)
    ensures forall x :: x in gaps <==> lo <= x <= hi && x !in present
    ensures forall i, j :: 0 <= i < j < |gaps| ==> gaps[i] < gaps[j]
    decreases if lo > hi then 0 else hi + 1 - lo
  {
    if lo > hi then []
    else
      var rest := GapsBetween(present, lo + 1, hi);
      assert forall k :: 0 <= k < |rest| ==> lo < rest[k] by {
        forall k | 0 <= k < |rest| ensures lo < rest[k] { assert rest[k] in rest; }
      }
      (if lo in present then [] else [lo]) + rest
  }

  /** The continuity check's missing chapters (lines 171-176): the numbers
      absent from the chapter set that lie between two present chapters, in
      ascending order; nothing past the highest chapter is reported. */
  function ChapterGaps(present: set<nat>): (gaps: seq<nat>)
    requires present != {}
    ensures forall x :: x in gaps <==>
      x !in present && (exists a :: a in present && a < x) && (exists b :: b in present && x < b)
    ensures forall i, j :: 0 <= i < j < |gaps| ==> gaps[i] < gaps[j]
  {
    var lo, hi := SetMin(present), SetMax(present);
    GapsBetween(present, lo, hi)
  }

  /** Chapters {1, 2, 4} miss exactly chapter 3. */
  lemma ChapterGapsExample()
    ensures ChapterGaps({1, 2, 4}) == [3]
  {
    var present: set<nat> := {1, 2, 4};
    assert SetMin(present) == 1 && SetMax(present) == 4;
    assert GapsBetween(present, 5, 4) == [];
    assert GapsBetween(present, 4, 4) == [];
    assert GapsBetween(present, 3, 4) == [3];
    assert GapsBetween(present, 2, 4) == [3];
    assert GapsBetween(present, 1, 4) == [3];
  }

  /** `infer_next_chapter`: one past the highest numbered chapter, or 1. */
  function InferNextChapter(chapters: map<nat, string>): (next: nat)
    ensures next >= 1
    ensures chapters == map[] ==> next == 1
    ensures forall k :: k in chapters ==> k < next
    ensures chapters != map[] ==> next - 1 in chapters
  {
    if chapters == map[] then 1
    else
      assert chapters.Keys != {} by { var k :| k in chapters; }
      SetMax(chapters.Keys) + 1
  }
}
