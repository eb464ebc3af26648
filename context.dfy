/** The data selection of `build_context_markdown` and the chapter choice of
    `cmd_context`: the chapter's sub-outline section, the end of the previous
    chapter, the table of active foreshadowing threads and the recent
    character actions, each with the placeholder the document shows when
    there is nothing to show. */
module Context {
  import opened Wrappers
  import opened Text
  import opened Seqs
  import opened Cells
  import opened ChapterFiles
  import opened Matching
  import opened Outline
  import opened RoleState
  import opened Ledger
  import opened Results
  import opened Checks

  const NoSection: string := "（未在 02-子大纲.md 中找到对应章节）"
  const NoPreviousChapter: string := "（无上一章正文或未命名为第NNN章.md）"
  const NoRecentActions: string := "（未在 07-当前角色状态.md 中识别到章节行动记录）"
  const NoActiveThreads: seq<string> := ["-", "-", "当前无活跃伏笔", "-", "-"]

  /** How much of the previous chapter the document quotes. */
  const TailLength: nat := 1200

  /** What the context document shows, without its fixed wording and its
      timestamp: the chapter, the section text, the previous chapter's end,
      the lines of the thread table and the lines of the action list. */
  datatype ContextData = ContextData(
    chapter: int,
    section: string,
    previousTail: string,
    threadLines: seq<string>,
    actionLines: seq<string>)

  /** `cmd_context`'s chapter: the one asked for, or the one after the
      highest numbered chapter file. */
  function ResolveChapter(p: Project, requested: Option<int>): (chapter: int)
    ensures requested.Some? ==> chapter == requested.value
    ensures requested.None? ==> chapter >= 1
    ensures requested.None? && ChapterIndex(p.listing) == map[] ==> chapter == 1
    ensures requested.None? && ChapterIndex(p.listing) != map[] ==> chapter - 1 in ChapterIndex(p.listing)
    ensures requested.None? ==> forall k :: k in ChapterIndex(p.listing) ==> k < chapter
  {
    match requested
    case Some(c) => c
    case None => InferNextChapter(ChapterIndex(p.listing))
  }

  // ---------------------------------------------------------- the section

  /** The section map of the sub-outline; a missing or empty file gives none. */
  function OutlineSections(p: Project): map<nat, string> {
    match p.outline
    case None => map[]
    case Some(text) => if text != [] then Sections(text) else map[]
  }

  /** `sections.get(chapter, …)`: the chapter's section, or the placeholder. */
  function SectionFor(p: Project, chapter: int): (section: string)
    ensures chapter >= 0 && chapter in OutlineSections(p) ==> section == OutlineSections(p)[chapter]
    ensures !(chapter >= 0 && chapter in OutlineSections(p)) ==> section == NoSection
  {
    var sections := OutlineSections(p);
    if chapter >= 0 && chapter in sections then sections[chapter] else NoSection
  }

  /** The context shows the section of the chapter's last heading, and the
      placeholder exactly when the sub-outline has no heading for it. */
  lemma SectionForHeadings(p: Project, chapter: nat)
    requires p.outline.Some?
    ensures var text := p.outline.value;
      (exists i :: 0 <= i < |Headings(text)| && Headings(text)[i].number == chapter) <==>
        chapter in OutlineSections(p)
    ensures chapter in Sections(p.outline.value) ==> SectionFor(p, chapter) == Sections(p.outline.value)[chapter]
  {
    OutlineSectionsOfText(p);
    SectionsKeys(p.outline.value, chapter);
  }

  /** An outline file's sections are those of its text, the empty text included. */
  lemma OutlineSectionsOfText(p: Project)
    requires p.outline.Some?
    ensures OutlineSections(p) == Sections(p.outline.value)
  {
    if p.outline.value == [] {
      EmptyTextNoSections(p.outline.value);
    }
  }

  // ------------------------------------------------- the previous chapter

  /** `text[-n:] if len(text) > n else text`. */
  function LastChars(s: string, n: nat): (r: string)
    ensures |r| == if |s| > n then n else |s|
    ensures s == s[..|s| - |r|] + r
  {
    if |s| > n then s[|s| - n..] else s
  }

  /** Whether the context quotes a previous chapter: the chapter map has one
      for `chapter - 1` and its file can be read. */
  predicate HasPreviousChapter(p: Project, chapter: int) {
    var index := ChapterIndex(p.listing);
    chapter - 1 >= 0 && chapter - 1 in index && index[chapter - 1] in p.drafts
  }

  /** The previous chapter's stripped text, cut to its last 1200 characters,
      or the placeholder. */
  function PreviousTail(p: Project, chapter: int): (tail: string)
    ensures HasPreviousChapter(p, chapter) ==>
      var text := Strip(p.drafts[ChapterIndex(p.listing)[chapter - 1]]);
      |tail| == (if |text| > TailLength then TailLength else |text|) && text == text[..|text| - |tail|] + tail
    ensures !HasPreviousChapter(p, chapter) ==> tail == NoPreviousChapter
  {
    if HasPreviousChapter(p, chapter) then
      LastChars(Strip(p.drafts[ChapterIndex(p.listing)[chapter - 1]]), TailLength)
    else NoPreviousChapter
  }

  /** For chapters 1 to 1000, the quoted previous chapter is the file
      `chapter_file(chapter - 1)` names, so the context and the gate's
      previous-chapter check look at the same file whenever the listing and
      the drafts agree on chapter file names. */
  lemma PreviousChapterFile(p: Project, chapter: int)
    requires 1 <= chapter <= 1000
    requires forall name :: IsChapterFileName(name) ==> (name in p.listing <==> name in p.drafts)
    ensures HasPreviousChapter(p, chapter) <==> ChapterFileName(chapter - 1) in p.drafts
    ensures HasPreviousChapter(p, chapter) ==> ChapterIndex(p.listing)[chapter - 1] == ChapterFileName(chapter - 1)
  {
    ListedUnderOwnNumber(p.listing, chapter - 1);
    var index := ChapterIndex(p.listing);
    if chapter - 1 in index {
      ChapterFileNameOfKey(index[chapter - 1]);
    }
  }

  /** Past chapter 1000 the two disagree: the chapter map never holds a
      four-digit number, so the context shows the placeholder even when
      `chapter_file(chapter - 1)` exists and the gate's check passes. */
  lemma PreviousChapterPastThousand(p: Project, chapter: int)
    requires chapter > 1000 && ChapterFileName(chapter - 1) in p.drafts
    ensures !HasPreviousChapter(p, chapter) && PreviousTail(p, chapter) == NoPreviousChapter
    ensures PreviousCheck(p, chapter).status == Pass
  {
    var index := ChapterIndex(p.listing);
    if chapter - 1 in index {
      ThreeDigitsBound(index[chapter - 1][1..4]);
    }
  }

  // ---------------------------------------------------- the thread table

  /** A Markdown table line: `| c1 | c2 | … |`. */
  function TableRow(cells: seq<string>): string {
    "|" + CellsText(cells)
  }

  function CellsText(cells: seq<string>): string
    decreases |cells|
  {
    if cells == [] then [] else CellsText(cells[..|cells| - 1]) + " " + cells[|cells| - 1] + " |"
  }

  /** The table line of one active thread: id, main line, content, planned
      recovery chapter and status, each made safe for a cell. */
  function ThreadRow(row: Row): string {
    TableRow(ThreadCells(row))
  }

  /** The five cells of a thread's line. */
  function ThreadCells(row: Row): (cells: seq<string>)
    ensures |cells| == 5 && forall j :: 0 <= j < 5 ==> PipesEscaped(cells[j])
  {
    SafeCells([NormalizeId(Cell(row, "id")), Cell(row, "主线"), Cell(row, "伏笔内容"),
               Cell(row, "计划回收章节"), NormalizeStatus(Cell(row, "状态"))])
  }

  /** `safe_cell` applied to every value of a line. */
  function SafeCells(values: seq<string>): (cells: seq<string>)
    ensures |cells| == |values|
    ensures forall j :: 0 <= j < |cells| ==> cells[j] == SafeCell(values[j]) && PipesEscaped(cells[j])
  {
    seq(|values|, j requires 0 <= j < |values| => SafeCell(values[j]))
  }

  /** The table body: one line per active thread, or the placeholder line. */
  function ThreadLines(active: seq<Row>): (lines: seq<string>)
    ensures active == [] ==> lines == [TableRow(NoActiveThreads)]
    ensures active != [] ==> |lines| == |active| && forall i :: 0 <= i < |active| ==> lines[i] == ThreadRow(active[i])
  {
    if active == [] then [TableRow(NoActiveThreads)]
    else seq(|active|, i requires 0 <= i < |active| => ThreadRow(active[i]))
  }

  /** Position `k` of a table line separates two cells: a `|` that no
      backslash escapes. */
  predicate SeparatorAt(s: string, k: nat)
    requires k < |s|
  {
    s[k] == '|' && (k == 0 || s[k - 1] != '\\')
  }

  /** The number of cell separators in a line. */
  function SeparatorCount(s: string): nat
    decreases |s|
  {
    if s == [] then 0 else SeparatorCount(s[..|s| - 1]) + (if SeparatorAt(s, |s| - 1) then 1 else 0)
  }

  lemma {:induction false} EscapedHasNoSeparator(c: string)
    requires PipesEscaped(c)
    ensures SeparatorCount(c) == 0
    decreases |c|
  {
    if c != [] {
      var init := c[..|c| - 1];
      assert PipesEscaped(init) by {
        assert forall k :: 0 <= k < |init| ==> init[k] == c[k];
      }
      EscapedHasNoSeparator(init);
      var last := |c| - 1;
      if last > 0 && c[last] == '|' {
        assert c[last - 1] == '\\';
      }
    }
  }

  /** Separators add up over a concatenation whose second part does not
      start with `|`. */
  lemma {:induction false} SeparatorCountConcat(a: string, b: string)
    requires b != [] ==> b[0] != '|'
    ensures SeparatorCount(a + b) == SeparatorCount(a) + SeparatorCount(b)
    decreases |b|
  {
    if b == [] {
      assert a + b == a;
    } else {
      var s := a + b;
      var init := b[..|b| - 1];
      assert s[..|s| - 1] == a + init;
      SeparatorCountConcat(a, init);
      if |b| > 1 {
        assert s[|s| - 2] == b[|b| - 2];
      }
      assert SeparatorAt(s, |s| - 1) == SeparatorAt(b, |b| - 1);
    }
  }

  /** Cells whose pipes are all escaped give one separator each, plus the
      opening one. */
  lemma {:induction false} CellsTextSeparators(cells: seq<string>)
    requires forall i :: 0 <= i < |cells| ==> PipesEscaped(cells[i])
    ensures SeparatorCount(CellsText(cells)) == |cells|
    ensures CellsText(cells) != [] ==> CellsText(cells)[0] == ' '
    decreases |cells|
  {
    if cells != [] {
      var init := cells[..|cells| - 1];
      var c := cells[|cells| - 1];
      CellsTextSeparators(init);
      EscapedHasNoSeparator(c);
      assert c != [] ==> c[0] != '|';
      var x := CellsText(init) + " " + c + " ";
      SeparatorCountConcat(CellsText(init), " ");
      SeparatorCountConcat(CellsText(init) + " ", c);
      SeparatorCountConcat(CellsText(init) + " " + c, " ");
      assert SeparatorCount(" ") == 0;
      assert CellsText(cells) == x + "|";
      assert (x + "|")[..|x|] == x;
      assert SeparatorAt(x + "|", |x|);
    }
  }

  /** A thread's line has six separators, whatever its cells hold. */
  lemma ThreadRowSeparators(row: Row)
    ensures SeparatorCount(ThreadRow(row)) == 6
  {
    var cells := ThreadCells(row);
    CellsTextSeparators(cells);
    SeparatorCountConcat("|", CellsText(cells));
  }

  /** So has the placeholder line. */
  lemma PlaceholderSeparators()
    ensures SeparatorCount(TableRow(NoActiveThreads)) == 6
  {
    assert forall j :: 0 <= j < |NoActiveThreads| ==> PipesEscaped(NoActiveThreads[j]);
    CellsTextSeparators(NoActiveThreads);
    SeparatorCountConcat("|", CellsText(NoActiveThreads));
  }

  /** Whatever the ledger holds, every line of the thread table has exactly
      six separators, so five columns: `safe_cell` keeps the table intact. */
  lemma ThreadLinesKeepFiveColumns(active: seq<Row>)
    ensures forall line :: line in ThreadLines(active) ==> SeparatorCount(line) == 6
  {
    PlaceholderSeparators();
    forall line | line in ThreadLines(active) ensures SeparatorCount(line) == 6 {
      if active != [] {
        var i :| 0 <= i < |active| && ThreadLines(active)[i] == line;
        ThreadRowSeparators(active[i]);
      }
    }
  }

  // ---------------------------------------------------- the action list

  /** The action list: each recent row in backquotes, or the placeholder. */
  function ActionLines(recent: seq<string>): (lines: seq<string>)
    ensures recent == [] ==> lines == ["- " + NoRecentActions]
    ensures recent != [] ==> |lines| == |recent| && forall i :: 0 <= i < |recent| ==> lines[i] == "- `" + recent[i] + "`"
  {
    if recent == [] then ["- " + NoRecentActions]
    else seq(|recent|, i requires 0 <= i < |recent| => "- `" + recent[i] + "`")
  }

  /** The action list holds one to five lines, and the placeholder exactly
      when no line of the character-state document has an action cell. */
  lemma ActionLinesShape(p: Project)
    ensures var text := if p.roleState.Some? then p.roleState.value else "";
      var lines := ActionLines(RecentRoleActions(text));
      1 <= |lines| <= 5
      && (lines == ["- " + NoRecentActions] <==> forall line :: line in SplitLines(text) ==> !HasRoleRow(line))
  {
    var text := if p.roleState.Some? then p.roleState.value else "";
    RecentRoleActionsEmptyIff(text);
    var recent := RecentRoleActions(text);
    if recent != [] {
      ActionLinesNotPlaceholder(recent);
    }
  }

  /** A quoted action line is never the placeholder line. */
  lemma ActionLinesNotPlaceholder(recent: seq<string>)
    requires recent != []
    ensures ActionLines(recent) != ["- " + NoRecentActions]
  {
    var lines := ActionLines(recent);
    assert lines[0][2] == '`' && ("- " + NoRecentActions)[2] != '`';
  }

  // ------------------------------------------------------------ assembly

  /** The threads the context lists: the ledger's active rows, or the
      error `load_rows` raises. */
  function ActiveThreads(p: Project, chapter: int): (r: Result<seq<Row>, SchemaError>)
    ensures r.Failure? <==> p.ledger.Some? && LoadRows(p.ledger.value).Failure?
    ensures r.Failure? ==> r.error == LoadRows(p.ledger.value).error
    ensures r.Success? ==> r.value == if p.ledger.None? then [] else ContextActiveRows(p.ledger.value.rows, chapter)
  {
    match p.ledger
    case None => Success([])
    case Some(f) =>
      match LoadRows(f)
      case Failure(e) => Failure(e)
      case Success(rows) => Success(ContextActiveRows(rows, chapter))
  }

  /** What `build_context_markdown` shows for the chapter, or the error that
      aborts it. */
  function ContextOf(p: Project, chapter: int): (r: Result<ContextData, SchemaError>)
    ensures r.Failure? <==> p.ledger.Some? && LoadRows(p.ledger.value).Failure?
    ensures r.Success? ==> r.value.chapter == chapter && r.value.threadLines != [] && r.value.actionLines != []
  {
    var active := ActiveThreads(p, chapter);
    if active.Failure? then Failure(active.error)
    else
      var roleText := if p.roleState.Some? then p.roleState.value else "";
      Success(ContextData(chapter, SectionFor(p, chapter), PreviousTail(p, chapter), ThreadLines(active.value),
                          ActionLines(RecentRoleActions(roleText))))
  }

  /** `build_context_markdown`, gathering the parts and the lines in the
      order the source does. */
  method BuildContext(p: Project, chapter: int) returns (r: Result<ContextData, SchemaError>)
    ensures r == ContextOf(p, chapter)
  {
    var sectionText := FindSection(p, chapter);
    var previousTail := ReadPreviousTail(p, chapter);
    var activeRows: seq<Row> := [];
    if p.ledger.Some? {
      var loaded := LoadRows(p.ledger.value);
      if loaded.Failure? {
        return Failure(loaded.error);
      }
      activeRows := ActiveRows(loaded.value, chapter);
    }

    var roleText := if p.roleState.Some? then p.roleState.value else "";
    var recentActions := RecentRoleActions(roleText);
    var threadLines := TableLines(activeRows);
    var actionLines := BulletLines(recentActions);
    r := Success(ContextData(chapter, sectionText, previousTail, threadLines, actionLines));
  }

  /** The section lookup of `build_context_markdown`. */
  method FindSection(p: Project, chapter: int) returns (section: string)
    ensures section == SectionFor(p, chapter)
  {
    var outlineText := if p.outline.Some? then p.outline.value else "";
    var sections: map<nat, string> := map[];
    if outlineText != [] {
      sections := SplitSuboutlineSections(outlineText);
    }
    assert sections == OutlineSections(p);
    section := if chapter >= 0 && chapter in sections then sections[chapter] else NoSection;
  }

  /** The previous-chapter lookup of `build_context_markdown`. */
  method ReadPreviousTail(p: Project, chapter: int) returns (tail: string)
    ensures tail == PreviousTail(p, chapter)
  {
    var chapterFiles, _ := CollectChapterFiles(p.listing);
    var previousChapter := chapter - 1;
    if previousChapter >= 0 && previousChapter in chapterFiles && chapterFiles[previousChapter] in p.drafts {
      assert HasPreviousChapter(p, chapter);
      var previousText := Strip(p.drafts[chapterFiles[previousChapter]]);
      tail := if |previousText| > TailLength then previousText[|previousText| - TailLength..] else previousText;
      assert tail == LastChars(previousText, TailLength);
    } else {
      tail := NoPreviousChapter;
    }
  }

  /** The loop that writes the thread table's lines. */
  method TableLines(active: seq<Row>) returns (lines: seq<string>)
    ensures lines == ThreadLines(active)
  {
    if active == [] {
      return [TableRow(NoActiveThreads)];
    }
    lines := RowLines(active);
  }

  /** The loop body's line for every active row, in order. */
  method RowLines(active: seq<Row>) returns (lines: seq<string>)
    ensures |lines| == |active| && forall j :: 0 <= j < |active| ==> lines[j] == ThreadRow(active[j])
  {
    lines := [];
    for i := 0 to |active|
      invariant |lines| == i && forall j :: 0 <= j < i ==> lines[j] == ThreadRow(active[j])
    {
      var line := ThreadRow(active[i]);
      AppendImage(lines, line, active, i, ThreadRow);
      lines := lines + [line];
    }
  }

  /** The loop that writes the action list's lines. */
  method BulletLines(recent: seq<string>) returns (lines: seq<string>)
    ensures lines == ActionLines(recent)
  {
    if recent == [] {
      return ["- " + NoRecentActions];
    }
    lines := [];
    for i := 0 to |recent|
      invariant |lines| == i && forall j :: 0 <= j < i ==> lines[j] == "- `" + recent[j] + "`"
    {
      lines := lines + ["- `" + recent[i] + "`"];
    }
  }

  /** Every open thread planted by this chapter (or with an unknown planting
      chapter) has its line in the thread table. */
  lemma ContextListsActiveThreads(p: Project, chapter: int, row: Row)
    requires p.ledger.Some? && LoadRows(p.ledger.value).Success?
    requires row in p.ledger.value.rows
    ensures ContextOf(p, chapter).Success?
    ensures ThreadRow(row) in ContextOf(p, chapter).value.threadLines <== IsContextActive(row, chapter)
  {
    var active := ContextActiveRows(p.ledger.value.rows, chapter);
    if IsContextActive(row, chapter) {
      assert row in active;
      var i :| 0 <= i < |active| && active[i] == row;
      assert ThreadLines(active)[i] == ThreadRow(row);
    }
  }

  /** Every line is the placeholder or the line of an active thread of `rows`. */
  predicate OnlyActiveThreadLines(lines: seq<string>, rows: seq<Row>, chapter: int) {
    forall line :: line in lines ==>
      line == TableRow(NoActiveThreads) || exists row :: row in rows && IsContextActive(row, chapter) && line == ThreadRow(row)
  }

  /** Conversely, every line of the thread table is the placeholder or the
      line of an active thread of the ledger: nothing else gets in. */
  lemma ContextListsOnlyActiveThreads(p: Project, chapter: int)
    requires ContextOf(p, chapter).Success?
    ensures p.ledger.None? ==> ContextOf(p, chapter).value.threadLines == [TableRow(NoActiveThreads)]
    ensures p.ledger.Some? ==> OnlyActiveThreadLines(ContextOf(p, chapter).value.threadLines, p.ledger.value.rows, chapter)
  {
    ContextThreadLines(p, chapter);
    if p.ledger.Some? {
      ThreadLinesOfActiveRows(p.ledger.value.rows, chapter);
    }
  }

  /** The thread table of a built context is the table of the active rows. */
  lemma ContextThreadLines(p: Project, chapter: int)
    requires ContextOf(p, chapter).Success?
    ensures p.ledger.Some? ==>
      ContextOf(p, chapter).value.threadLines == ThreadLines(ContextActiveRows(p.ledger.value.rows, chapter))
    ensures p.ledger.None? ==> ContextOf(p, chapter).value.threadLines == [TableRow(NoActiveThreads)]
  {
  }

  lemma ThreadLinesOfActiveRows(rows: seq<Row>, chapter: int)
    ensures OnlyActiveThreadLines(ThreadLines(ContextActiveRows(rows, chapter)), rows, chapter)
  {
    var active := ContextActiveRows(rows, chapter);
    forall line | line in ThreadLines(active)
      ensures line == TableRow(NoActiveThreads) || exists row :: row in rows && IsContextActive(row, chapter) && line == ThreadRow(row)
    {
      if active != [] {
        var i :| 0 <= i < |active| && ThreadLines(active)[i] == line;
        assert active[i] in active;
      }
    }
  }
}
